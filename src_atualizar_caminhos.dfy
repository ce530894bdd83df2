/**
 * `src/atualizar_caminhos_arquivos.py`: scan the result folder for XML
 * files, read the fiscal key from each name, map key to (path, empty flag)
 * with the last file of a key winning, then record path, downloaded flag
 * and empty flag on every table row whose key was mapped, in batches.
 */
module SrcAtualizarCaminhos {
  import opened Wrappers
  import opened Text
  import opened Calendar
  import opened Fs
  import opened Store
  import opened Batches
  import opened SrcUtilsNames

  // ---------------------------------------------------------------- the key in a file name

  /** `nome.replace('.xml', '').replace('.XML', '')`. */
  function SemExtensao(nome: string): string
  {
    ReplaceAll(ReplaceAll(nome, ".xml", ""), ".XML", "")
  }

  /**
   * `extrair_chave_do_nome(nome)`: the third `_`-separated part of an old
   * `NFe_...` name unchecked, the third part of a current name when it is a
   * key, a bare key, or `""`.
   */
  function ExtrairChaveDoNome(nome: string): (r: string)
    ensures r != [] && !('_' in SemExtensao(nome) && IsPrefix("NFe", Split(SemExtensao(nome), '_')[0])) ==> IsKey(r)
  {
    var semExt := SemExtensao(nome);
    if '_' in semExt && |Split(semExt, '_')| >= 3 && IsPrefix("NFe", Split(semExt, '_')[0]) then
      Split(semExt, '_')[2]
    else if '_' in semExt && |Split(semExt, '_')| >= 3 && IsKey(Split(semExt, '_')[2]) then
      Split(semExt, '_')[2]
    else if IsKey(semExt) then semExt
    else ""
  }

  /** An old-style name gives its third part, whatever it holds. */
  lemma ExtrairChaveNFe(nome: string)
    requires var partes := Split(SemExtensao(nome), '_'); |partes| >= 3 && IsPrefix("NFe", partes[0])
    ensures ExtrairChaveDoNome(nome) == Split(SemExtensao(nome), '_')[2]
  {
    var s := SemExtensao(nome);
    if '_' !in s {
      SplitWhole(s, '_');
    }
  }

  /** Without an underscore the name is a key or nothing. */
  lemma ExtrairChaveSemSeparador(nome: string)
    requires '_' !in SemExtensao(nome)
    ensures ExtrairChaveDoNome(nome) == if IsKey(SemExtensao(nome)) then SemExtensao(nome) else ""
  {
  }

  /** Replacing a pattern that starts with a non-digit leaves a leading run of digits alone. */
  lemma {:induction false} ReplaceAfterDigits(a: string, rest: string, pat: string, rep: string)
    requires |pat| > 0 && !IsDigit(pat[0]) && AllDigits(a)
    ensures ReplaceAll(a + rest, pat, rep) == a + ReplaceAll(rest, pat, rep)
    decreases |a|
  {
    var s := a + rest;
    if a == [] {
      assert s == rest;
    } else if |s| < |pat| {
      ReplaceAbsentShort(s, pat, rep);
      ReplaceAbsentShort(rest, pat, rep);
    } else {
      assert s[0] == a[0] && s[1..] == a[1..] + rest;
      ReplaceNoMatchHead(s, pat, rep);
      ReplaceAfterDigits(a[1..], rest, pat, rep);
      assert [a[0]] + (a[1..] + ReplaceAll(rest, pat, rep)) == a + ReplaceAll(rest, pat, rep);
    }
  }

  /** A text whose first character does not start the pattern keeps that character. */
  lemma ReplaceNoMatchHead(s: string, pat: string, rep: string)
    requires 0 < |pat| <= |s| && s[0] != pat[0]
    ensures ReplaceAll(s, pat, rep) == [s[0]] + ReplaceAll(s[1..], pat, rep)
  {
    assert s[..|pat|][0] == s[0];
  }

  /** A text shorter than the pattern is left as it is. */
  lemma ReplaceAbsentShort(s: string, pat: string, rep: string)
    requires 0 < |pat| && |s| < |pat|
    ensures ReplaceAll(s, pat, rep) == s
  {
  }

  /** The pattern itself, then the rest. */
  lemma ReplaceAtStart(pat: string, rest: string, rep: string)
    requires |pat| > 0
    ensures ReplaceAll(pat + rest, pat, rep) == rep + ReplaceAll(rest, pat, rep)
  {
    var s := pat + rest;
    assert s[..|pat|] == pat && s[|pat|..] == rest;
  }

  /** A text with no `.` has no extension to remove. */
  lemma NoDotUnchanged(s: string, pat: string, rep: string)
    requires |pat| > 0 && pat[0] == '.' && '.' !in s
    ensures ReplaceAll(s, pat, rep) == s
  {
    if Contains(s, pat) {
      NoDotNotContains(s, pat);
    } else {
      ReplaceAbsent(s, pat, rep);
    }
  }

  lemma {:induction false} NoDotNotContains(s: string, pat: string)
    requires |pat| > 0 && pat[0] == '.' && '.' !in s
    ensures !Contains(s, pat)
    decreases |s|
  {
    if |s| > 0 {
      assert s[1..] <= s[1..];
      assert forall c | c in s[1..] :: c in s;
      NoDotNotContains(s[1..], pat);
    }
  }

  /** `.xml` is removed wherever it occurs: two runs of digits around it read as one key. */
  lemma ExtrairChaveAnywhere(a: string, b: string)
    requires AllDigits(a) && AllDigits(b) && |a| + |b| == KeyLength
    ensures ExtrairChaveDoNome(a + ".xml" + b) == a + b
  {
    var nome := a + ".xml" + b;
    assert nome == a + (".xml" + b);
    ReplaceAfterDigits(a, ".xml" + b, ".xml", "");
    ReplaceAtStart(".xml", b, "");
    DigitsHaveNo(b, '.');
    NoDotUnchanged(b, ".xml", "");
    assert ReplaceAll(".xml" + b, ".xml", "") == b;
    assert ReplaceAll(nome, ".xml", "") == a + b;
    assert AllDigits(a + b) by {
      forall i | 0 <= i < |a + b| ensures IsDigit((a + b)[i]) {
        if i < |a| { assert (a + b)[i] == a[i]; } else { assert (a + b)[i] == b[i - |a|]; }
      }
    }
    DigitsHaveNo(a + b, '.');
    NoDotUnchanged(a + b, ".XML", "");
    assert SemExtensao(nome) == a + b;
    DigitsHaveNo(a + b, '_');
  }

  /** The key comes back from the name `gerar_nome_arquivo_xml` gives a note. */
  lemma ExtrairChaveOfXmlName(num: string, d: Date, chave: string)
    requires ValidDate(d) && |num| > 0 && AllDigits(num) && IsKey(chave)
    ensures ExtrairChaveDoNome(XmlName(num, d, chave)) == chave
  {
    var compact := FormatCompact(d);
    var stem := num + "_" + compact + "_" + chave;
    assert XmlName(num, d, chave) == stem + ".xml";
    DigitsHaveNo(num, '.');
    DigitsHaveNo(compact, '.');
    DigitsHaveNo(chave, '.');
    assert '.' !in stem;
    NoDotUnchanged(stem, ".xml", "");
    assert ReplaceAll(stem + ".xml", ".xml", "") == stem by {
      NoDotPrefixThenPat(stem, "");
    }
    NoDotUnchanged(stem, ".XML", "");
    DigitsHaveNo(num, '_');
    DigitsHaveNo(compact, '_');
    DigitsHaveNo(chave, '_');
    SplitThree(num, compact, chave, '_');
    assert stem == num + ['_'] + compact + ['_'] + chave;
    assert stem[|num|] == '_';
    assert IsDigit(num[0]) && "NFe"[0] == 'N';
    assert !IsPrefix("NFe", num);
  }

  /** A text with no `.` followed by `.xml`: only the extension goes. */
  lemma {:induction false} NoDotPrefixThenPat(s: string, rep: string)
    requires '.' !in s
    ensures ReplaceAll(s + ".xml", ".xml", rep) == s + rep
    decreases |s|
  {
    var t := s + ".xml";
    if s == [] {
      ReplaceAtStart(".xml", "", rep);
      assert ".xml" + "" == ".xml";
      assert ReplaceAll("", ".xml", rep) == "";
    } else {
      assert t[..4][0] == s[0];
      assert t[1..] == s[1..] + ".xml";
      assert '.' !in s[1..] by {
        assert forall c | c in s[1..] :: c in s;
      }
      NoDotPrefixThenPat(s[1..], rep);
      assert [s[0]] + (s[1..] + rep) == s + rep;
    }
  }

  // ---------------------------------------------------------------- empty files

  /** `b'<?xml'` and `b'<nfeProc'`. */
  const XmlDecl: seq<Byte> := [60, 63, 120, 109, 108]
  const NfeProc: seq<Byte> := [60, 110, 102, 101, 80, 114, 111, 99]

  /** `f.read(1024)`: at most the first 1024 bytes. */
  function Inicio(c: seq<Byte>): (r: seq<Byte>)
    ensures |r| <= 1024 && IsPrefix(r, c)
  {
    if |c| <= 1024 then c else c[..1024]
  }

  /** `_verificar_arquivo_vazio` on the bytes of a file: 1 for empty, 0 for XML. */
  function ConteudoVazio(c: seq<Byte>): (r: nat)
    ensures r <= 1
  {
    if |c| == 0 then 1
    else if BytesBlank(Inicio(c)) then 1
    else if Contains(Inicio(c), XmlDecl) || Contains(Inicio(c), NfeProc) then 0
    else 1
  }

  /** `_verificar_arquivo_vazio(path)`: what cannot be opened as a file (missing, a folder) counts as valid. */
  function VerificarArquivoVazio(fs: FileSystem, p: Path): (r: nat)
    ensures r <= 1
    ensures p !in fs.files ==> r == 0
  {
    if p !in fs.files then 0 else ConteudoVazio(fs.files[p])
  }

  lemma {:induction false} ContainsHead(s: seq<Byte>, sub: seq<Byte>) returns (i: nat)
    requires |sub| > 0 && Contains(s, sub)
    ensures i < |s| && s[i] == sub[0]
    decreases |s|
  {
    if IsPrefix(sub, s) {
      i := 0;
    } else {
      var j := ContainsHead(s[1..], sub);
      i := j + 1;
    }
  }

  /** A file is valid exactly when its first 1024 bytes hold an XML declaration or a `<nfeProc` tag. */
  lemma ConteudoVazioIff(c: seq<Byte>)
    ensures ConteudoVazio(c) == 0 <==> Contains(Inicio(c), XmlDecl) || Contains(Inicio(c), NfeProc)
  {
    var chunk := Inicio(c);
    if Contains(chunk, XmlDecl) || Contains(chunk, NfeProc) {
      var i: nat;
      if Contains(chunk, XmlDecl) {
        i := ContainsHead(chunk, XmlDecl);
      } else {
        i := ContainsHead(chunk, NfeProc);
      }
      assert chunk[i] == 60;
      assert !IsAsciiWhitespace(chunk[i]);
    }
  }

  // ---------------------------------------------------------------- the key -> file mapping

  /** What the mapping records for a file. */
  datatype Info = Info(caminho: string, xmlVazio: nat)

  /** A Python dict: its keys in insertion order, and its entries. */
  datatype Dict = Dict(chaves: seq<string>, valores: map<string, Info>)

  predicate DictValido(d: Dict)
  {
    (forall i, j | 0 <= i < j < |d.chaves| :: d.chaves[i] != d.chaves[j])
    && (forall k | k in d.valores :: k in d.chaves) && (forall i | 0 <= i < |d.chaves| :: d.chaves[i] in d.valores)
  }

  /** `d[k] = v`: a new key goes at the end, an existing one keeps its place. */
  function Atribuir(d: Dict, k: string, v: Info): (r: Dict)
    ensures r.valores == d.valores[k := v]
    ensures DictValido(d) ==> DictValido(r)
  {
    Dict(if k in d.valores then d.chaves else d.chaves + [k], d.valores[k := v])
  }

  /** The entry a file contributes: none when the name holds no key. */
  function Entrada(fs: FileSystem, p: Path): (e: Option<(string, Info)>)
    ensures e.Some? ==> e.value.0 != []
  {
    var chave := ExtrairChaveDoNome(Name(p));
    if chave == [] then None else Some((chave, Info(PathStr(p), VerificarArquivoVazio(fs, p))))
  }

  /** The entries of the files, in listing order. */
  function Entradas(fs: FileSystem, arquivos: seq<Path>): (es: seq<Option<(string, Info)>>)
    ensures |es| == |arquivos|
    ensures forall i | 0 <= i < |arquivos| :: es[i] == Entrada(fs, arquivos[i])
  {
    seq(|arquivos|, i requires 0 <= i < |arquivos| => Entrada(fs, arquivos[i]))
  }

  /** The dict after assigning the entries one after the other. */
  function Registrar(es: seq<Option<(string, Info)>>): (d: Dict)
    ensures DictValido(d)
  {
    if es == [] then Dict([], map[])
    else
      var prev := Registrar(es[..|es| - 1]);
      match es[|es| - 1]
      case None => prev
      case Some((k, v)) => Atribuir(prev, k, v)
  }

  /** `mapeamento_chaves` after the loop over `arquivos`. */
  function Mapeamento(fs: FileSystem, arquivos: seq<Path>): (d: Dict)
    ensures DictValido(d)
  {
    Registrar(Entradas(fs, arquivos))
  }

  /** The mapping loop of `atualizar_caminhos_no_banco`. */
  method MapearChaves(fs: FileSystem, arquivos: seq<Path>) returns (m: Dict)
    ensures m == Mapeamento(fs, arquivos)
  {
    m := Dict([], map[]);
    var vazios := 0;
    for i := 0 to |arquivos|
      invariant m == Registrar(Entradas(fs, arquivos)[..i])
    {
      var path := arquivos[i];
      RegistrarArquivo(fs, arquivos, i);
      var chave := ExtrairChaveDoNome(Name(path));
      if chave != [] {
        var caminhoArquivo := PathStr(path);
        var xmlVazio := VerificarArquivoVazio(fs, path);
        if xmlVazio == 1 {
          vazios := vazios + 1;
        }
        m := Atribuir(m, chave, Info(caminhoArquivo, xmlVazio));
      }
    }
    MapeamentoTodo(fs, arquivos);
  }

  /** The file at position `i` adds its entry, if it has one, to the dict of the files before it. */
  lemma RegistrarArquivo(fs: FileSystem, arquivos: seq<Path>, i: nat)
    requires i < |arquivos|
    ensures var path := arquivos[i];
            var chave := ExtrairChaveDoNome(Name(path));
            var antes := Registrar(Entradas(fs, arquivos)[..i]);
            Registrar(Entradas(fs, arquivos)[..i + 1])
            == if chave == [] then antes else Atribuir(antes, chave, Info(PathStr(path), VerificarArquivoVazio(fs, path)))
  {
    var es := Entradas(fs, arquivos);
    assert es[i] == Entrada(fs, arquivos[i]);
    RegistrarPrefixo(es, i);
  }

  lemma MapeamentoTodo(fs: FileSystem, arquivos: seq<Path>)
    ensures Registrar(Entradas(fs, arquivos)[..|arquivos|]) == Mapeamento(fs, arquivos)
  {
    var es := Entradas(fs, arquivos);
    assert es[..|arquivos|] == es;
  }

  /** `RegistrarSnoc` on the prefixes of one sequence of entries. */
  lemma RegistrarPrefixo(es: seq<Option<(string, Info)>>, i: nat)
    requires i < |es|
    ensures es[i].None? ==> Registrar(es[..i + 1]) == Registrar(es[..i])
    ensures es[i].Some? ==> Registrar(es[..i + 1]) == Atribuir(Registrar(es[..i]), es[i].value.0, es[i].value.1)
  {
    assert es[..i + 1] == es[..i] + [es[i]];
    RegistrarSnoc(es[..i], es[i]);
  }

  /** One more entry: nothing for a file without a key, one assignment otherwise. */
  lemma RegistrarSnoc(es: seq<Option<(string, Info)>>, e: Option<(string, Info)>)
    ensures e.None? ==> Registrar(es + [e]) == Registrar(es)
    ensures e.Some? ==> Registrar(es + [e]) == Atribuir(Registrar(es), e.value.0, e.value.1)
  {
    assert (es + [e])[..|es|] == es;
  }

  /** A key is registered exactly when some entry carries it. */
  lemma {:induction false} RegistrarKeys(es: seq<Option<(string, Info)>>, k: string)
    ensures k in Registrar(es).valores <==> exists i | 0 <= i < |es| :: es[i].Some? && es[i].value.0 == k
    decreases |es|
  {
    if es != [] {
      var front := es[..|es| - 1];
      RegistrarKeys(front, k);
      if exists i | 0 <= i < |front| :: front[i].Some? && front[i].value.0 == k {
        var i :| 0 <= i < |front| && front[i].Some? && front[i].value.0 == k;
        assert es[i] == front[i];
      }
      if exists i | 0 <= i < |es| :: es[i].Some? && es[i].value.0 == k {
        var i :| 0 <= i < |es| && es[i].Some? && es[i].value.0 == k;
        if i < |front| {
          assert front[i] == es[i];
        }
      }
    }
  }

  /** The last entry carrying a key decides what the key maps to. */
  lemma {:induction false} RegistrarLastWins(es: seq<Option<(string, Info)>>, i: nat)
    requires i < |es| && es[i].Some?
    requires forall j | i < j < |es| :: !(es[j].Some? && es[j].value.0 == es[i].value.0)
    ensures es[i].value.0 in Registrar(es).valores && Registrar(es).valores[es[i].value.0] == es[i].value.1
    decreases |es|
  {
    var front := es[..|es| - 1];
    if i < |es| - 1 {
      assert front[i] == es[i];
      forall j | i < j < |front| ensures !(front[j].Some? && front[j].value.0 == front[i].value.0) {
        assert front[j] == es[j];
      }
      RegistrarLastWins(front, i);
    }
  }

  /** The keys mapped are exactly the keys read from some file name. */
  lemma MapeamentoKeys(fs: FileSystem, arquivos: seq<Path>, k: string)
    ensures k in Mapeamento(fs, arquivos).valores <==>
              exists i | 0 <= i < |arquivos| :: Entrada(fs, arquivos[i]).Some? && Entrada(fs, arquivos[i]).value.0 == k
  {
    var es := Entradas(fs, arquivos);
    RegistrarKeys(es, k);
    if exists i | 0 <= i < |es| :: es[i].Some? && es[i].value.0 == k {
      var i :| 0 <= i < |es| && es[i].Some? && es[i].value.0 == k;
      assert Entrada(fs, arquivos[i]) == es[i];
    }
  }

  /** For a key read from several files, the last of them wins. */
  lemma MapeamentoLastWins(fs: FileSystem, arquivos: seq<Path>, i: nat)
    requires i < |arquivos| && Entrada(fs, arquivos[i]).Some?
    requires forall j | i < j < |arquivos| ::
               !(Entrada(fs, arquivos[j]).Some? && Entrada(fs, arquivos[j]).value.0 == Entrada(fs, arquivos[i]).value.0)
    ensures var e := Entrada(fs, arquivos[i]).value;
            e.0 in Mapeamento(fs, arquivos).valores && Mapeamento(fs, arquivos).valores[e.0] == e.1
  {
    var es := Entradas(fs, arquivos);
    forall j | i < j < |es| ensures !(es[j].Some? && es[j].value.0 == es[i].value.0) {
      assert es[j] == Entrada(fs, arquivos[j]);
    }
    RegistrarLastWins(es, i);
  }

  // ---------------------------------------------------------------- the batched update

  /** The size of the update batches. */
  const LoteSize := 1000

  /** The rows after the updates for the keys `ks`: path, downloaded and empty flag from the mapping. */
  function Aplicado(rows: Rows, valores: map<string, Info>, ks: seq<string>): (r: Rows)
    ensures r.Keys == rows.Keys
    ensures forall k | k in rows && !(k in ks && k in valores) :: r[k] == rows[k]
    ensures forall k | k in rows && k in ks && k in valores ::
              r[k] == rows[k].(caminhoArquivo := Some(valores[k].caminho), xmlBaixado := true,
                               xmlVazio := valores[k].xmlVazio == 1)
  {
    map k | k in rows ::
      if k in ks && k in valores
      then rows[k].(caminhoArquivo := Some(valores[k].caminho), xmlBaixado := true, xmlVazio := valores[k].xmlVazio == 1)
      else rows[k]
  }

  /** Updating two runs of keys one after the other is updating their concatenation. */
  lemma AplicadoConcat(rows: Rows, valores: map<string, Info>, a: seq<string>, b: seq<string>)
    ensures Aplicado(Aplicado(rows, valores, a), valores, b) == Aplicado(rows, valores, a + b)
  {
    forall k | k in rows ensures k in a + b <==> k in a || k in b { }
  }

  /** The rows an `UPDATE ... WHERE cChaveNFe = ?` per key matches: `cursor.rowcount` summed. */
  function Presentes(keys: set<string>, ks: seq<string>): (n: nat)
    ensures n <= |ks|
  {
    if ks == [] then 0 else Presentes(keys, ks[..|ks| - 1]) + (if ks[|ks| - 1] in keys then 1 else 0)
  }

  lemma {:induction false} PresentesConcat(keys: set<string>, a: seq<string>, b: seq<string>)
    ensures Presentes(keys, a + b) == Presentes(keys, a) + Presentes(keys, b)
    decreases |b|
  {
    if b != [] {
      var b0 := b[..|b| - 1];
      assert (a + b)[..|a + b| - 1] == a + b0;
      assert (a + b)[|a + b| - 1] == b[|b| - 1];
      PresentesConcat(keys, a, b0);
    } else {
      assert a + b == a;
    }
  }

  /** With no repeated key, the count is the number of distinct keys found in the table. */
  lemma {:induction false} PresentesDistinct(keys: set<string>, ks: seq<string>)
    requires forall i, j | 0 <= i < j < |ks| :: ks[i] != ks[j]
    ensures Presentes(keys, ks) == |set k | k in ks && k in keys|
    decreases |ks|
  {
    if ks != [] {
      var front := ks[..|ks| - 1];
      var last := ks[|ks| - 1];
      assert ks == front + [last];
      forall i, j | 0 <= i < j < |front| ensures front[i] != front[j] {
        assert front[i] == ks[i] && front[j] == ks[j];
      }
      PresentesDistinct(keys, front);
      assert last !in front by {
        forall i | 0 <= i < |front| ensures front[i] != last {
          assert front[i] == ks[i];
        }
      }
      ConjuntoSnoc(keys, front, last);
    }
  }

  /** The keys found after one more key: one more exactly when it is found and new. */
  lemma ConjuntoSnoc(keys: set<string>, front: seq<string>, last: string)
    requires last !in front
    ensures |set k | k in front + [last] && k in keys| == |set k | k in front && k in keys| + (if last in keys then 1 else 0)
  {
    var antes := set k | k in front && k in keys;
    var depois := set k | k in front + [last] && k in keys;
    if last in keys {
      assert depois == antes + {last};
    } else {
      assert depois == antes;
    }
  }

  /** `_atualizar_banco_otimizado(db, mapeamento)`: the batches of 1000 keys; the count logged. */
  method AtualizarBancoOtimizado(t: Table, m: Dict) returns (atualizados: nat)
    requires DictValido(m)
    modifies t
    ensures t.rows == Aplicado(old(t.rows), m.valores, m.chaves)
    ensures atualizados == Presentes(old(t.rows).Keys, m.chaves)
  {
    var rows0 := t.rows;
    var chaves := m.chaves;
    var totalChaves := |chaves|;
    atualizados := 0;
    var i := 0;
    while i < totalChaves
      invariant 0 <= i <= totalChaves
      invariant t.rows == Aplicado(rows0, m.valores, chaves[..i])
      invariant atualizados == Presentes(rows0.Keys, chaves[..i])
      decreases totalChaves - i
    {
      var fim := Fim(totalChaves, i, LoteSize);
      var loteChaves := Lote(chaves, i, LoteSize);
      LoteAplicado(rows0, m.valores, chaves, i, fim, loteChaves);
      atualizados := atualizados + Presentes(t.rows.Keys, loteChaves);
      t.rows := Aplicado(t.rows, m.valores, loteChaves);
      i := fim;
    }
    assert chaves[..i] == chaves;
  }

  /** One batch of keys extends the prefix already updated, and its count adds up. */
  lemma LoteAplicado(rows0: Rows, valores: map<string, Info>, chaves: seq<string>, i: nat, fim: nat, lote: seq<string>)
    requires i <= fim <= |chaves| && lote == chaves[i..fim]
    ensures Aplicado(Aplicado(rows0, valores, chaves[..i]), valores, lote) == Aplicado(rows0, valores, chaves[..fim])
    ensures Presentes(rows0.Keys, chaves[..i]) + Presentes(Aplicado(rows0, valores, chaves[..i]).Keys, lote)
            == Presentes(rows0.Keys, chaves[..fim])
  {
    assert chaves[..fim] == chaves[..i] + lote;
    AplicadoConcat(rows0, valores, chaves[..i], lote);
    PresentesConcat(rows0.Keys, chaves[..i], lote);
  }

  // ---------------------------------------------------------------- the whole run

  /** The XML files found under the result folder, in scan order; none when it does not exist. */
  function Arquivos(fs: FileSystem, resultadoDir: Path): seq<Path>
  {
    if Exists(fs, resultadoDir) then Rglob(fs, resultadoDir) else []
  }

  /**
   * On a well-formed file system, a key is mapped exactly when some XML
   * file on disk below the result folder gives it from its name.
   */
  lemma MapeamentoNoDisco(fs: FileSystem, resultadoDir: Path, k: string)
    requires Valid(fs)
    ensures k in Mapeamento(fs, Arquivos(fs, resultadoDir)).valores <==>
              Exists(fs, resultadoDir)
              && exists p | p in fs.files && Below(p, resultadoDir) && EndsWith(Name(p), ".xml") ::
                   Entrada(fs, p).Some? && Entrada(fs, p).value.0 == k
  {
    var arquivos := Arquivos(fs, resultadoDir);
    MapeamentoKeys(fs, arquivos, k);
    if Exists(fs, resultadoDir) {
      RglobCompleto(fs, resultadoDir);
      if exists p | p in fs.files && Below(p, resultadoDir) && EndsWith(Name(p), ".xml") ::
           Entrada(fs, p).Some? && Entrada(fs, p).value.0 == k {
        var p :| p in fs.files && Below(p, resultadoDir) && EndsWith(Name(p), ".xml")
                 && Entrada(fs, p).Some? && Entrada(fs, p).value.0 == k;
        assert p in arquivos;
        var i :| 0 <= i < |arquivos| && arquivos[i] == p;
      }
    }
  }

  /** The table after `atualizar_caminhos_no_banco`. */
  function CaminhosApos(rows: Rows, fs: FileSystem, resultadoDir: Path): Rows
  {
    var arquivos := Arquivos(fs, resultadoDir);
    if arquivos == [] then rows
    else
      var m := Mapeamento(fs, arquivos);
      if m.valores == map[] then rows else Aplicado(rows, m.valores, m.chaves)
  }

  /** `atualizar_caminhos_no_banco(db)` with the configured result folder given; the reports are not modelled. */
  method AtualizarCaminhosNoBanco(t: Table, fs: FileSystem, resultadoDir: Path)
    modifies t
    ensures t.rows == CaminhosApos(old(t.rows), fs, resultadoDir)
  {
    var arquivosXml: seq<Path> := [];
    if Exists(fs, resultadoDir) {
      arquivosXml := Rglob(fs, resultadoDir);
    }
    var todosArquivos := arquivosXml;
    if |todosArquivos| == 0 {
      return;
    }
    var mapeamentoChaves := MapearChaves(fs, todosArquivos);
    if mapeamentoChaves.valores != map[] {
      var _ := AtualizarBancoOtimizado(t, mapeamentoChaves);
    }
  }

  /**
   * Every row whose key some file name gives is marked with that key's
   * mapped file, already downloaded or not; every other row is unchanged.
   */
  lemma CaminhosAposEfeito(rows: Rows, fs: FileSystem, resultadoDir: Path, k: string)
    requires k in rows
    ensures var m := Mapeamento(fs, Arquivos(fs, resultadoDir)).valores;
            var r := CaminhosApos(rows, fs, resultadoDir);
            k in r
            && (k !in m ==> r[k] == rows[k])
            && (k in m ==> r[k] == rows[k].(caminhoArquivo := Some(m[k].caminho), xmlBaixado := true,
                                            xmlVazio := m[k].xmlVazio == 1))
  {
    var arquivos := Arquivos(fs, resultadoDir);
    if arquivos == [] {
      assert Mapeamento(fs, arquivos).valores == map[];
    }
  }
}
