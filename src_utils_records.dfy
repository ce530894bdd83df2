/**
 * Saving notes into the `notas` table, as src/utils.py does it: the check a
 * record must pass (`_validar_registro_nota`), its conversion into the
 * inserted tuple (`transformar_em_tuple`), and `salvar_nota` and
 * `salvar_varias_notas` over a mutable `Table`.  Both save functions run
 * with their default `validar_entrada=True`.
 */
module SrcUtilsRecords {
  import opened Wrappers
  import opened Text
  import opened Json
  import opened Store
  import opened SrcUtilsDates
  import opened SrcUtilsNames

  // ---------------------------------------------------------------- _validar_registro_nota

  /** A required field: truthy, and not blank when it is a string. */
  predicate Preenchido(j: Json)
  {
    Truthy(j) && !(j.JStr? && Strip(j.s) == [])
  }

  /**
   * `_validar_registro_nota` raises nothing: the key is a string of 44
   * characters once stripped, and the date and the number are present.
   */
  predicate RegistroValido(r: Obj)
  {
    var chave := Get(r, "cChaveNFe");
    chave.JStr? && |Strip(chave.s)| == KeyLength
    && Preenchido(Get(r, "dEmi")) && Preenchido(Get(r, "nNF"))
  }

  // ---------------------------------------------------------------- transformar_em_tuple

  /** `safe_str`: None stays None; otherwise `str(v).strip()`, with `''`, `'-'` and `'None'` read as None. */
  function SafeStr(j: Json): (r: Option<string>)
    ensures j.JNull? ==> r.None?
    ensures r.Some? ==> Strip(r.value) == r.value && r.value != "" && r.value != "-" && r.value != "None"
  {
    if j.JNull? then None
    else
      var v := Strip(PyStr(j));
      StripStrip(PyStr(j));
      if v == "" || v == "-" || v == "None" then None else Some(v)
  }

  /** Applying `safe_str` to its own result changes nothing. */
  lemma SafeStrIdempotent(j: Json)
    requires SafeStr(j).Some?
    ensures SafeStr(JStr(SafeStr(j).value)) == SafeStr(j)
  {
  }

  /** The integer strings `int(float(v))` reads exactly: an optional sign, then digits. */
  predicate SignedDigits(t: string)
  {
    (|t| > 0 && AllDigits(t)) || (|t| > 1 && (t[0] == '-' || t[0] == '+') && AllDigits(t[1..]))
  }

  function SignedValue(t: string): int
    requires SignedDigits(t)
  {
    if t[0] == '-' then 0 - NatOf(t[1..]) else if t[0] == '+' then NatOf(t[1..]) else NatOf(t)
  }

  /** `safe_int`: an int, or a string holding one; anything `float()` rejects becomes None. */
  function SafeInt(j: Json): (r: Option<int>)
    ensures j.JInt? ==> r == Some(j.i)
    ensures j.JNull? || j.JList? || j.JObj? ==> r.None?
  {
    match j
    case JInt(i) => Some(i)
    case JStr(s) =>
      var t := Strip(s);
      if SignedDigits(t) then Some(SignedValue(t)) else None
    case _ => None
  }

  /** `safe_int(str(i)) == i`: an integer survives the trip through its decimal text. */
  lemma SafeIntOfText(i: int)
    ensures SafeInt(JStr(IntToString(i))) == Some(i)
  {
    var s := IntToString(i);
    if i < 0 {
      var u := NatToString(-i);
      assert s[0] == '-' && s[1..] == u;
      assert !IsPyWhitespace(s[0]) && !IsPyWhitespace(s[|s| - 1]);
      StripNoEdges(s);
      NatOfNatToString(-i);
    } else {
      assert !IsPyWhitespace(s[0]) && !IsPyWhitespace(s[|s| - 1]);
      StripNoEdges(s);
      NatOfNatToString(i);
    }
  }

  /** An `INTEGER` column bound to `safe_int`'s result. */
  function IntCell(v: Option<int>): SqlVal
  {
    if v.Some? then Int(v.value) else Null
  }

  /** The tuple inserted for a record: its primary key and the row. */
  datatype Tupla = Tupla(chave: Option<string>, row: Row)

  /**
   * `transformar_em_tuple`: ValueError when the key, the date or the number
   * is falsy; otherwise every text field through `safe_str`, the two ids
   * through `safe_int`, `dEmi` through `normalizar_data`, no path and not
   * downloaded.
   */
  function TransformarEmTuple(r: Obj): (res: Outcome<Tupla>)
    ensures res.Raise? <==> !Truthy(Get(r, "cChaveNFe")) || !Truthy(Get(r, "dEmi")) || !Truthy(Get(r, "nNF"))
    ensures res.Raise? ==> res.exc == ValueError
    ensures res.Ok? ==> var row := res.value.row;
              !row.xmlBaixado && row.caminhoArquivo.None? && row.anomesdia.None? && !row.xmlVazio
              && (row.dEmi.Some? ==> |row.dEmi.value| == 10 && NormalizarData(row.dEmi) == row.dEmi)
  {
    if !Truthy(Get(r, "cChaveNFe")) || !Truthy(Get(r, "dEmi")) || !Truthy(Get(r, "nNF")) then
      Raise(ValueError)
    else
      ColunasIndex(r, ColunasTexto, 13);
      NormalizarDataIdempotent(SafeStr(Get(r, "dEmi")));
      Ok(Tupla(SafeStr(r["cChaveNFe"]), Linha(r)))
  }

  /**
   * The text columns of the tuple, each through `safe_str`; `dEmi` then
   * goes through `normalizar_data`.  The order is that of the insert
   * statement, except that `dEmi` comes last.
   */
  const ColunasTexto: seq<string> :=
    ["dCan", "dInut", "dReg", "dSaiEnt", "hEmi", "hSaiEnt", "mod", "nNF",
     "serie", "tpAmb", "tpNF", "cnpj_cpf", "cRazao", "dEmi"]

  function Coluna(r: Obj, nome: string): Option<string>
  {
    if nome == "dEmi" then NormalizarData(SafeStr(Get(r, nome))) else SafeStr(Get(r, nome))
  }

  function Colunas(r: Obj, nomes: seq<string>): (c: seq<Option<string>>)
    ensures |c| == |nomes|
  {
    if nomes == [] then [] else [Coluna(r, nomes[0])] + Colunas(r, nomes[1..])
  }

  lemma {:induction false} ColunasIndex(r: Obj, nomes: seq<string>, k: nat)
    requires k < |nomes|
    ensures Colunas(r, nomes)[k] == Coluna(r, nomes[k])
  {
    if k > 0 {
      ColunasIndex(r, nomes[1..], k - 1);
    }
  }

  /** The row `transformar_em_tuple` builds, once its required fields are known to be present. */
  function Linha(r: Obj): Row
  {
    var c := Colunas(r, ColunasTexto);
    Row(IntCell(SafeInt(Get(r, "nIdNF"))), IntCell(SafeInt(Get(r, "nIdPedido"))),
        c[0], c[13], c[1], c[2], c[3], c[4], c[5], c[6], c[7], c[8], c[9], c[10], c[11], c[12],
        false, None, None, false, false)
  }

  /** The inserted pair of a record: its stripped key and its row. */
  function TuplaDe(r: Obj): (t: (string, Row))
  {
    (Strip(PyStr(Get(r, "cChaveNFe"))), Linha(r))
  }

  /**
   * A record that passes the validation always converts, and its primary
   * key is the stripped 44-character key.
   */
  lemma ValidoConverte(r: Obj)
    requires RegistroValido(r)
    ensures TransformarEmTuple(r) == Ok(Tupla(Some(TuplaDe(r).0), TuplaDe(r).1))
    ensures |TuplaDe(r).0| == KeyLength
  {
    var j := Get(r, "cChaveNFe");
    var s := Strip(j.s);
    assert |s| == KeyLength;
    assert s != "" && s != "-" && s != "None";
    assert |j.s| >= |s|;
    assert Truthy(j) && Truthy(Get(r, "dEmi")) && Truthy(Get(r, "nNF"));
    assert SafeStr(r["cChaveNFe"]) == Some(s);
    assert TuplaDe(r).0 == s;
  }

  predicate TodosValidos(v: seq<Obj>)
  {
    forall k | 0 <= k < |v| :: RegistroValido(v[k])
  }

  /** `[f(x) for x in v]`. */
  function MapSeq<A, B>(f: A -> B, v: seq<A>): (w: seq<B>)
    ensures |w| == |v|
  {
    if v == [] then [] else [f(v[0])] + MapSeq(f, v[1..])
  }

  lemma {:induction false} MapSeqIndex<A, B>(f: A -> B, v: seq<A>, k: nat)
    requires k < |v|
    ensures MapSeq(f, v)[k] == f(v[k])
  {
    if k > 0 {
      MapSeqIndex(f, v[1..], k - 1);
    }
  }

  lemma {:induction false} MapSeqAppend<A, B>(f: A -> B, a: seq<A>, b: seq<A>)
    ensures MapSeq(f, a + b) == MapSeq(f, a) + MapSeq(f, b)
    decreases |a|
  {
    if a == [] {
      assert a + b == b;
    } else {
      assert (a + b)[0] == a[0] && (a + b)[1..] == a[1..] + b;
      MapSeqAppend(f, a[1..], b);
    }
  }

  /** The tuples of a run of records, in order. */
  function Tuplas(v: seq<Obj>): (ts: seq<(string, Row)>)
    ensures |ts| == |v|
  {
    MapSeq(TuplaDe, v)
  }

  // ---------------------------------------------------------------- salvar_nota

  datatype Motivo = InseridoComSucesso | DuplicataIgnorada | DadosInvalidos

  /** `ResultadoSalvamento`; `chave` is the key as the record holds it, or its `[:8]` prefix on failure. */
  datatype ResultadoSalvamento = ResultadoSalvamento(sucesso: bool, chave: Json, duplicata: bool, motivo: Motivo)

  /** `v[:8]`: strings and lists slice; None, numbers and dicts raise. */
  function Prefixo8(j: Json): (r: Option<Json>)
    ensures r.Some? <==> j.JStr? || j.JList?
    ensures r.Some? && j.JStr? ==> r.value.JStr? && IsPrefix(r.value.s, j.s) && |r.value.s| == Min8(|j.s|)
  {
    match j
    case JStr(s) => Some(JStr(s[..Min8(|s|)]))
    case JList(xs) => Some(JList(xs[..Min8(|xs|)]))
    case _ => None
  }

  function Min8(n: nat): nat { if n < 8 then n else 8 }

  /** The context key `salvar_nota` computes before its `try`: a missing key reads `'UNKNOWN'`. */
  function ChaveContexto(r: Obj): Option<Json>
  {
    Prefixo8(GetOr(r, "cChaveNFe", JStr("UNKNOWN")))
  }

  /**
   * What `salvar_nota` returns: TypeError before anything else when the
   * context key cannot be sliced; a failure for an invalid record; a
   * duplicate when the stripped key is already stored; an insertion otherwise.
   */
  function SalvarNotaResultado(rows: Rows, r: Obj): (res: Outcome<ResultadoSalvamento>)
    ensures res.Raise? <==> ChaveContexto(r).None?
    ensures res.Raise? ==> res.exc == TypeError
    ensures res.Ok? ==> (res.value.sucesso <==> RegistroValido(r))
    ensures res.Ok? && !RegistroValido(r) ==>
              res.value == ResultadoSalvamento(false, ChaveContexto(r).value, false, DadosInvalidos)
    ensures res.Ok? && RegistroValido(r) ==>
              res.value.chave == Get(r, "cChaveNFe") && (res.value.duplicata <==> TuplaDe(r).0 in rows)
  {
    var ctx := ChaveContexto(r);
    if ctx.None? then Raise(TypeError)
    else if !RegistroValido(r) then Ok(ResultadoSalvamento(false, ctx.value, false, DadosInvalidos))
    else if TuplaDe(r).0 in rows then Ok(ResultadoSalvamento(true, r["cChaveNFe"], true, DuplicataIgnorada))
    else Ok(ResultadoSalvamento(true, r["cChaveNFe"], false, InseridoComSucesso))
  }

  /**
   * The table after `salvar_nota`: a valid record with a new key adds its
   * row; nothing else changes, and no stored row is ever altered.
   */
  function SalvarNotaLinhas(rows: Rows, r: Obj): (after: Rows)
    ensures forall k | k in rows :: k in after && after[k] == rows[k]
    ensures ChaveContexto(r).Some? && RegistroValido(r) ==>
              after.Keys == rows.Keys + {TuplaDe(r).0} && after[TuplaDe(r).0] == (if TuplaDe(r).0 in rows then rows[TuplaDe(r).0] else TuplaDe(r).1)
    ensures ChaveContexto(r).None? || !RegistroValido(r) ==> after == rows
  {
    if ChaveContexto(r).Some? && RegistroValido(r) then InsertOrIgnore(rows, TuplaDe(r).0, TuplaDe(r).1)
    else rows
  }

  /** `salvar_nota(registro, db_path)`. */
  method SalvarNota(t: Table, registro: Obj) returns (res: Outcome<ResultadoSalvamento>)
    modifies t
    ensures res == SalvarNotaResultado(old(t.rows), registro)
    ensures t.rows == SalvarNotaLinhas(old(t.rows), registro)
  {
    var ctx := ChaveContexto(registro);
    if ctx.None? {
      return Raise(TypeError);
    }
    if !RegistroValido(registro) {
      return Ok(ResultadoSalvamento(false, ctx.value, false, DadosInvalidos));
    }
    var tupla := TuplaDe(registro);
    if tupla.0 in t.rows {
      // sqlite3.IntegrityError: UNIQUE constraint failed
      return Ok(ResultadoSalvamento(true, registro["cChaveNFe"], true, DuplicataIgnorada));
    }
    t.rows := t.rows[tupla.0 := tupla.1];
    return Ok(ResultadoSalvamento(true, registro["cChaveNFe"], false, InseridoComSucesso));
  }

  // ---------------------------------------------------------------- salvar_varias_notas: validation pass

  /** The key collected for the invalid record at index `i`; a missing key reads `REGISTRO_<i>`. */
  function ChaveDoInvalido(r: Obj, i: nat): Json
  {
    GetOr(r, "cChaveNFe", JStr("REGISTRO_" + IntToString(i)))
  }

  /**
   * The validation pass as written: the warning for an invalid record
   * formats `chave[:8]`, so a key that is None, a number or a dict raises
   * TypeError out of `salvar_varias_notas`.
   */
  function TriagemComoEscrita(regs: seq<Obj>): (res: Outcome<(seq<Obj>, seq<Json>)>)
    ensures res.Raise? ==> res.exc == TypeError
    decreases |regs|
  {
    if regs == [] then Ok(([], []))
    else
      var n := |regs| - 1;
      var prev := TriagemComoEscrita(regs[..n]);
      if prev.Raise? then prev
      else if RegistroValido(regs[n]) then Ok((prev.value.0 + [regs[n]], prev.value.1))
      else if Prefixo8(ChaveDoInvalido(regs[n], n)).None? then Raise(TypeError)
      else Ok((prev.value.0, prev.value.1 + [ChaveDoInvalido(regs[n], n)]))
  }

  /**
   * The validation pass as intended: the valid records, in order, and the
   * key of every invalid one.
   */
  function Triagem(regs: seq<Obj>): (res: (seq<Obj>, seq<Json>))
    ensures |res.0| + |res.1| == |regs|
    decreases |regs|
  {
    if regs == [] then ([], [])
    else
      var n := |regs| - 1;
      var prev := Triagem(regs[..n]);
      if RegistroValido(regs[n]) then (prev.0 + [regs[n]], prev.1)
      else (prev.0, prev.1 + [ChaveDoInvalido(regs[n], n)])
  }

  /** Every record the pass keeps is valid. */
  lemma {:induction false} TriagemValidos(regs: seq<Obj>)
    ensures TodosValidos(Triagem(regs).0)
    decreases |regs|
  {
    if regs != [] {
      TriagemValidos(regs[..|regs| - 1]);
    }
  }

  /** One more record extends the pass by that record's verdict. */
  lemma TriagemSnoc(regs: seq<Obj>, r: Obj)
    ensures var prev := Triagem(regs);
      Triagem(regs + [r])
      == if RegistroValido(r) then (prev.0 + [r], prev.1) else (prev.0, prev.1 + [ChaveDoInvalido(r, |regs|)])
  {
    assert (regs + [r])[..|regs|] == regs;
  }

  /** The pass keeps every valid record. */
  lemma {:induction false} TriagemKeepsValid(regs: seq<Obj>)
    ensures forall k | 0 <= k < |regs| && RegistroValido(regs[k]) :: regs[k] in Triagem(regs).0
    decreases |regs|
  {
    if regs != [] {
      var n := |regs| - 1;
      var init := regs[..n];
      assert regs == init + [regs[n]];
      TriagemKeepsValid(init);
      TriagemSnoc(init, regs[n]);
      var prev := Triagem(init).0;
      forall k | 0 <= k < |regs| && RegistroValido(regs[k])
        ensures regs[k] in Triagem(regs).0
      {
        if k < n {
          assert init[k] == regs[k] && init[k] in prev;
        }
      }
    }
  }

  /** The pass keeps nothing from outside its input. */
  lemma {:induction false} TriagemKeepsInput(regs: seq<Obj>)
    ensures forall x | x in Triagem(regs).0 :: x in regs
    decreases |regs|
  {
    if regs != [] {
      var n := |regs| - 1;
      var init := regs[..n];
      assert regs == init + [regs[n]];
      TriagemKeepsInput(init);
      TriagemSnoc(init, regs[n]);
      assert forall x | x in init :: x in regs;
    }
  }

  /** Where the written pass does not raise, it agrees with the intended one. */
  lemma {:induction false} TriagemComoEscritaAgrees(regs: seq<Obj>)
    ensures TriagemComoEscrita(regs).Ok? ==> TriagemComoEscrita(regs).value == Triagem(regs)
    decreases |regs|
  {
    if regs != [] {
      TriagemComoEscritaAgrees(regs[..|regs| - 1]);
    }
  }

  /** A record whose key is present but None ends the written pass, while the intended one counts it. */
  lemma TriagemNoneKey()
    ensures TriagemComoEscrita([map["cChaveNFe" := JNull]]) == Raise(TypeError)
    ensures Triagem([map["cChaveNFe" := JNull]]) == ([], [JNull])
  {
    var r: Obj := map["cChaveNFe" := JNull];
    var regs: seq<Obj> := [r];
    assert regs[..0] == [];
    assert Get(r, "cChaveNFe") == JNull;
    assert !RegistroValido(r);
    assert ChaveDoInvalido(r, 0) == JNull;
    assert Triagem(regs) == (Triagem([]).0, Triagem([]).1 + [JNull]);
    assert TriagemComoEscrita(regs) == Raise(TypeError);
    var e := Triagem([]);
    assert e == ([], []);
    assert e.1 + [JNull] == [JNull];
    assert Triagem(regs) == ([], [JNull]);
    assert regs == [map["cChaveNFe" := JNull]];
  }

  /**
   * An invalid record whose key is present but cannot be sliced: its
   * warning raises; a missing key reads `REGISTRO_<i>`, which slices.
   */
  predicate QuebraValidacao(r: Obj)
  {
    !RegistroValido(r) && "cChaveNFe" in r && Prefixo8(r["cChaveNFe"]).None?
  }

  /** The written pass's step on the record at index `i` raises exactly on `QuebraValidacao`. */
  lemma QuebraDoInvalido(r: Obj, i: nat)
    ensures !RegistroValido(r) && Prefixo8(ChaveDoInvalido(r, i)).None? <==> QuebraValidacao(r)
  {
  }

  /**
   * The written pass raises exactly when some invalid record carries a key
   * that cannot be sliced.
   */
  lemma {:induction false} TriagemComoEscritaRaiseIff(regs: seq<Obj>)
    ensures TriagemComoEscrita(regs).Raise? <==> exists r | r in regs :: QuebraValidacao(r)
    decreases |regs|
  {
    if regs != [] {
      var n := |regs| - 1;
      var init := regs[..n];
      assert regs == init + [regs[n]];
      TriagemComoEscritaRaiseIff(init);
      QuebraDoInvalido(regs[n], n);
    }
  }

  /** Once a prefix of the records makes the written pass raise, the whole list does. */
  lemma TriagemComoEscritaPrefixo(regs: seq<Obj>, i: nat)
    requires i <= |regs| && TriagemComoEscrita(regs[..i]).Raise?
    ensures TriagemComoEscrita(regs) == Raise(TypeError)
  {
    TriagemComoEscritaRaiseIff(regs[..i]);
    TriagemComoEscritaRaiseIff(regs);
    var r :| r in regs[..i] && QuebraValidacao(r);
    assert r in regs;
  }

  // ---------------------------------------------------------------- salvar_varias_notas: batches

  const TamanhoLotePadrao := 200

  /** The dictionary `salvar_varias_notas` returns. */
  datatype Relatorio = Relatorio(totalProcessados: nat, inseridos: int, duplicatas: int, erros: nat, chavesComErro: seq<Json>)

  /**
   * The table after `salvar_varias_notas(registros, db, tamanho_lote=n)`:
   * every valid record through `INSERT OR IGNORE`, in order, when `n > 0`;
   * untouched when the written validation pass raises, since that happens
   * before the connection is opened.
   */
  function LinhasAposLote(rows: Rows, regs: seq<Obj>, tamanhoLote: int): (after: Rows)
    ensures forall k | k in rows :: k in after && after[k] == rows[k]
  {
    if regs == [] || tamanhoLote <= 0 || TriagemComoEscrita(regs).Raise? then rows
    else InsertAllOrIgnore(rows, Tuplas(Triagem(regs).0))
  }

  /**
   * The dictionary `salvar_varias_notas` returns, or the exception it
   * raises: the written validation pass's TypeError comes first; past it,
   * the report is `RelatorioCorrigido`'s.
   */
  function RelatorioLote(rows: Rows, regs: seq<Obj>, tamanhoLote: int): Outcome<Relatorio>
  {
    if regs != [] && TriagemComoEscrita(regs).Raise? then Raise(TypeError)
    else RelatorioCorrigido(rows, regs, tamanhoLote)
  }

  /**
   * The dictionary with the intended validation pass (every invalid record
   * counted, none raising) and the insert count taken from the rows the
   * table gained; a batch size of 0 makes `range` raise, which surfaces as
   * DatabaseError.
   */
  function RelatorioCorrigido(rows: Rows, regs: seq<Obj>, tamanhoLote: int): Outcome<Relatorio>
  {
    if regs == [] then Ok(Relatorio(0, 0, 0, 0, []))
    else
      var tri := Triagem(regs);
      if tamanhoLote == 0 then Raise(DatabaseError)
      else if tamanhoLote < 0 then Ok(Relatorio(|tri.0|, 0, 0, |tri.1|, tri.1))
      else
        var novos := NewKeys(rows, Tuplas(tri.0));
        Ok(Relatorio(|tri.0|, novos, |tri.0| - novos, |tri.1|, tri.1))
  }

  /**
   * The counts add up: `inseridos` is the number of rows the table gained,
   * inserted plus duplicates is the number of valid records, and every
   * record is either processed or an error.
   */
  lemma RelatorioLoteExato(rows: Rows, regs: seq<Obj>, tamanhoLote: int)
    requires RelatorioLote(rows, regs, tamanhoLote).Ok? && tamanhoLote > 0
    ensures var rel := RelatorioLote(rows, regs, tamanhoLote).value;
              rel.inseridos == |LinhasAposLote(rows, regs, tamanhoLote).Keys| - |rows.Keys|
              && rel.inseridos + rel.duplicatas == rel.totalProcessados
              && rel.totalProcessados + rel.erros == |regs|
              && rel.erros == |rel.chavesComErro|
  {
    if regs != [] {
      InsertAllCount(rows, Tuplas(Triagem(regs).0));
    }
  }

  /**
   * The written validation pass decides first: TypeError, with the table
   * untouched, exactly when some invalid record's key cannot slice;
   * otherwise the dictionary is the corrected one.
   */
  lemma RelatorioLoteComoEscrito(rows: Rows, regs: seq<Obj>, tamanhoLote: int)
    ensures RelatorioLote(rows, regs, tamanhoLote) == Raise(TypeError)
            <==> exists r | r in regs :: QuebraValidacao(r)
    ensures (exists r | r in regs :: QuebraValidacao(r)) ==> LinhasAposLote(rows, regs, tamanhoLote) == rows
    ensures (forall r | r in regs :: !QuebraValidacao(r))
            ==> RelatorioLote(rows, regs, tamanhoLote) == RelatorioCorrigido(rows, regs, tamanhoLote)
  {
    TriagemComoEscritaRaiseIff(regs);
  }

  /** Every valid record's stripped key is stored after the batches, unless the validation pass raised. */
  lemma LinhasAposLoteKeys(rows: Rows, regs: seq<Obj>, tamanhoLote: int)
    requires regs != [] && tamanhoLote > 0
    ensures TriagemComoEscrita(regs).Ok? ==>
              forall k | 0 <= k < |Triagem(regs).0| :: TuplaDe(Triagem(regs).0[k]).0 in LinhasAposLote(rows, regs, tamanhoLote)
  {
    var v := Triagem(regs).0;
    var ts := Tuplas(v);
    InsertAllKeys(rows, ts);
    forall k | 0 <= k < |v|
      ensures TuplaDe(v[k]).0 in InsertAllOrIgnore(rows, ts)
    {
      MapSeqIndex(TuplaDe, v, k);
      assert ts[k].0 in BatchKeys(ts);
    }
  }

  lemma {:induction false} InsertAllConcat(rows: Rows, a: seq<(string, Row)>, b: seq<(string, Row)>)
    ensures InsertAllOrIgnore(rows, a + b) == InsertAllOrIgnore(InsertAllOrIgnore(rows, a), b)
    ensures NewKeys(rows, a + b) == NewKeys(rows, a) + NewKeys(InsertAllOrIgnore(rows, a), b)
    decreases |a|
  {
    if a == [] {
      assert a + b == b;
    } else {
      assert (a + b)[0] == a[0] && (a + b)[1..] == a[1..] + b;
      InsertAllConcat(InsertOrIgnore(rows, a[0].0, a[0].1), a[1..], b);
    }
  }

  /**
   * The validation loop of `salvar_varias_notas` as written: the pass
   * `TriagemComoEscrita` prescribes, which where it does not raise is the
   * intended split.
   */
  method TriarRegistros(registros: seq<Obj>) returns (res: Outcome<(seq<Obj>, seq<Json>)>, totalErros: nat)
    ensures res == TriagemComoEscrita(registros)
    ensures res.Ok? ==> res.value == Triagem(registros) && totalErros == |res.value.1|
  {
    var validos: seq<Obj>, chavesComErro: seq<Json> := [], [];
    totalErros := 0;
    for i := 0 to |registros|
      invariant TriagemComoEscrita(registros[..i]) == Ok((validos, chavesComErro))
      invariant totalErros == |chavesComErro|
    {
      var registro := registros[i];
      assert registros[..i + 1][..i] == registros[..i];
      if RegistroValido(registro) {
        validos := validos + [registro];
      } else {
        var chave := ChaveDoInvalido(registro, i);
        if Prefixo8(chave).None? {
          // chave[:8] in the warning raises TypeError
          TriagemComoEscritaPrefixo(registros, i + 1);
          return Raise(TypeError), totalErros;
        }
        chavesComErro := chavesComErro + [chave];
        totalErros := totalErros + 1;
      }
    }
    assert registros[..|registros|] == registros;
    TriagemComoEscritaAgrees(registros);
    return Ok((validos, chavesComErro)), totalErros;
  }

  /**
   * The batch loop of `salvar_varias_notas`: slices of `tamanhoLote` valid
   * records, each converted and run through `INSERT OR IGNORE`; a batch's
   * insertions are the growth of the connection's `total_changes`.
   */
  method InserirLotes(t: Table, validos: seq<Obj>, tamanhoLote: nat) returns (totalInseridos: int, totalDuplicatas: int)
    requires tamanhoLote > 0
    modifies t
    ensures t.rows == InsertAllOrIgnore(old(t.rows), Tuplas(validos))
    ensures totalInseridos == NewKeys(old(t.rows), Tuplas(validos))
    ensures totalInseridos + totalDuplicatas == |validos|
  {
    var rows0 := t.rows;
    var totalChanges := 0;
    totalInseridos, totalDuplicatas := 0, 0;
    var i := 0;
    while i < |validos|
      invariant 0 <= i <= |validos|
      invariant t.rows == InsertAllOrIgnore(rows0, Tuplas(validos[..i]))
      invariant totalChanges == NewKeys(rows0, Tuplas(validos[..i]))
      invariant totalInseridos == totalChanges && totalInseridos + totalDuplicatas == i
      decreases |validos| - i
    {
      var fim := if i + tamanhoLote < |validos| then i + tamanhoLote else |validos|;
      var lote := validos[i..fim];
      var dadosLote := Tuplas(lote);
      LoteTuplas(rows0, validos, i, fim);
      var mudancasAntes := totalChanges;
      totalChanges := totalChanges + NewKeys(t.rows, dadosLote);
      t.rows := InsertAllOrIgnore(t.rows, dadosLote);
      var inseridosLote := totalChanges - mudancasAntes;
      var duplicatasLote := |dadosLote| - inseridosLote;
      totalInseridos := totalInseridos + inseridosLote;
      totalDuplicatas := totalDuplicatas + duplicatasLote;
      assert |dadosLote| == fim - i;
      assert t.rows == InsertAllOrIgnore(rows0, Tuplas(validos[..fim]));
      assert totalChanges == NewKeys(rows0, Tuplas(validos[..fim]));
      i := fim;
    }
    assert validos[..|validos|] == validos;
  }

  /** `LoteStep` for the tuples `transformar_em_tuple` builds. */
  lemma LoteTuplas(rows0: Rows, v: seq<Obj>, i: nat, fim: nat)
    requires i <= fim <= |v|
    ensures InsertAllOrIgnore(rows0, Tuplas(v[..fim]))
            == InsertAllOrIgnore(InsertAllOrIgnore(rows0, Tuplas(v[..i])), Tuplas(v[i..fim]))
    ensures NewKeys(rows0, Tuplas(v[..fim]))
            == NewKeys(rows0, Tuplas(v[..i])) + NewKeys(InsertAllOrIgnore(rows0, Tuplas(v[..i])), Tuplas(v[i..fim]))
  {
    LoteStep(rows0, TuplaDe, v, i, fim);
  }

  /** One batch extends the prefix of converted records already run through `INSERT OR IGNORE`. */
  lemma LoteStep<A>(rows0: Rows, f: A -> (string, Row), v: seq<A>, i: nat, fim: nat)
    requires i <= fim <= |v|
    ensures InsertAllOrIgnore(rows0, MapSeq(f, v[..fim]))
            == InsertAllOrIgnore(InsertAllOrIgnore(rows0, MapSeq(f, v[..i])), MapSeq(f, v[i..fim]))
    ensures NewKeys(rows0, MapSeq(f, v[..fim]))
            == NewKeys(rows0, MapSeq(f, v[..i])) + NewKeys(InsertAllOrIgnore(rows0, MapSeq(f, v[..i])), MapSeq(f, v[i..fim]))
  {
    assert v[..fim] == v[..i] + v[i..fim];
    MapSeqAppend(f, v[..i], v[i..fim]);
    InsertAllConcat(rows0, MapSeq(f, v[..i]), MapSeq(f, v[i..fim]));
  }

  /** With batches, the corrected dictionary in terms of the validation pass's results and the number of rows gained. */
  lemma RelatorioLoteDe(rows: Rows, regs: seq<Obj>, tamanhoLote: int, validos: seq<Obj>, erros: seq<Json>, novos: int)
    requires regs != [] && tamanhoLote > 0
    requires validos == Triagem(regs).0 && erros == Triagem(regs).1
    requires novos == NewKeys(rows, Tuplas(validos))
    ensures RelatorioCorrigido(rows, regs, tamanhoLote).Ok?
    ensures RelatorioCorrigido(rows, regs, tamanhoLote).value == Relatorio(|validos|, novos, |validos| - novos, |erros|, erros)
  {
  }

  /** A negative batch size runs no batch: the corrected dictionary reports the validation pass alone. */
  lemma RelatorioSemLotes(rows: Rows, regs: seq<Obj>, tamanhoLote: int, validos: seq<Obj>, erros: seq<Json>)
    requires regs != [] && tamanhoLote < 0
    requires validos == Triagem(regs).0 && erros == Triagem(regs).1
    ensures RelatorioCorrigido(rows, regs, tamanhoLote).Ok?
    ensures RelatorioCorrigido(rows, regs, tamanhoLote).value == Relatorio(|validos|, 0, 0, |erros|, erros)
  {
  }

  /** `salvar_varias_notas(registros, db_path, tamanho_lote=tamanhoLote)`. */
  method SalvarVariasNotas(t: Table, registros: seq<Obj>, tamanhoLote: int) returns (res: Outcome<Relatorio>)
    modifies t
    ensures res == RelatorioLote(old(t.rows), registros, tamanhoLote)
    ensures t.rows == LinhasAposLote(old(t.rows), registros, tamanhoLote)
  {
    if registros == [] {
      return Ok(Relatorio(0, 0, 0, 0, []));
    }
    var triagem, totalErros := TriarRegistros(registros);
    if triagem.Raise? {
      return Raise(TypeError);
    }
    var validos, chavesComErro := triagem.value.0, triagem.value.1;
    if tamanhoLote == 0 {
      return Raise(DatabaseError);
    }
    if tamanhoLote < 0 {
      RelatorioSemLotes(old(t.rows), registros, tamanhoLote, validos, chavesComErro);
      return Ok(Relatorio(|validos|, 0, 0, totalErros, chavesComErro));
    }
    TriagemValidos(registros);
    var totalInseridos, totalDuplicatas := InserirLotes(t, validos, tamanhoLote);
    RelatorioLoteDe(old(t.rows), registros, tamanhoLote, validos, chavesComErro, totalInseridos);
    assert Relatorio(|validos|, totalInseridos, totalDuplicatas, totalErros, chavesComErro)
        == Relatorio(|validos|, totalInseridos, |validos| - totalInseridos, |chavesComErro|, chavesComErro);
    return Ok(Relatorio(|validos|, totalInseridos, totalDuplicatas, totalErros, chavesComErro));
  }

  // ---------------------------------------------------------------- the counters as written

  /**
   * The counters as src/utils.py updates them after each batch: a batch's
   * insertions are the connection's cumulative `total_changes` minus the
   * running inserted and duplicate totals.
   */
  function ContadoresComoEscritos(rows0: Rows, ts: seq<(string, Row)>, tamanhoLote: nat, inicio: nat,
                                  totalInseridos: int, totalDuplicatas: int): (c: (int, int))
    requires tamanhoLote > 0 && inicio <= |ts|
    decreases |ts| - inicio
  {
    if inicio == |ts| then (totalInseridos, totalDuplicatas)
    else
      var fim := if inicio + tamanhoLote < |ts| then inicio + tamanhoLote else |ts|;
      var totalChanges := NewKeys(rows0, ts[..fim]);
      var inseridosLote := totalChanges - totalInseridos - totalDuplicatas;
      var duplicatasLote := (fim - inicio) - inseridosLote;
      ContadoresComoEscritos(rows0, ts, tamanhoLote, fim, totalInseridos + inseridosLote, totalDuplicatas + duplicatasLote)
  }

  /** As written, inserted plus duplicates still adds up to the rows attempted. */
  lemma {:induction false} ContadoresComoEscritosSum(rows0: Rows, ts: seq<(string, Row)>, tamanhoLote: nat, inicio: nat,
                                                     totalInseridos: int, totalDuplicatas: int)
    requires tamanhoLote > 0 && inicio <= |ts|
    ensures var c := ContadoresComoEscritos(rows0, ts, tamanhoLote, inicio, totalInseridos, totalDuplicatas);
              c.0 + c.1 == totalInseridos + totalDuplicatas + (|ts| - inicio)
    decreases |ts| - inicio
  {
    if inicio < |ts| {
      var fim := if inicio + tamanhoLote < |ts| then inicio + tamanhoLote else |ts|;
      var totalChanges := NewKeys(rows0, ts[..fim]);
      var inseridosLote := totalChanges - totalInseridos - totalDuplicatas;
      ContadoresComoEscritosSum(rows0, ts, tamanhoLote, fim, totalInseridos + inseridosLote,
                                totalDuplicatas + ((fim - inicio) - inseridosLote));
    }
  }

  /**
   * After a batch with a duplicate, the written counters under-report: key
   * `a` is stored, the batches are `[a, b]` and `[c]`, and two rows are
   * added, yet the counters say one insertion and two duplicates.
   */
  lemma ContadoresComoEscritosUnderReport(row: Row)
    ensures var rows0 := map["a" := row];
            var ts := [("a", row), ("b", row), ("c", row)];
            ContadoresComoEscritos(rows0, ts, 2, 0, 0, 0) == (1, 2)
            && NewKeys(rows0, ts) == 2
  {
    var rows0 := map["a" := row];
    var ts := [("a", row), ("b", row), ("c", row)];
    var r1 := map["a" := row, "b" := row];
    assert InsertOrIgnore(rows0, "a", row) == rows0;
    assert InsertOrIgnore(rows0, "b", row) == r1;
    assert ts[..2][1..] == [("b", row)];
    assert NewKeys(r1, []) == 0;
    assert NewKeys(rows0, [("b", row)]) == 1;
    assert NewKeys(rows0, ts[..2]) == 1;
    assert ts[1..] == [("b", row), ("c", row)];
    assert [("b", row), ("c", row)][1..] == [("c", row)];
    assert "c" !in r1;
    assert NewKeys(r1, [("c", row)]) == 1;
    assert NewKeys(rows0, [("b", row), ("c", row)]) == 2;
    assert NewKeys(rows0, ts) == 2;
    assert ts[..3] == ts;
    assert ContadoresComoEscritos(rows0, ts, 2, 3, 1, 2) == (1, 2);
    assert ContadoresComoEscritos(rows0, ts, 2, 2, 1, 1) == (1, 2);
  }
}
