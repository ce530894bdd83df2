/**
 * The table maintenance of `src/utils.py`: marking a note as downloaded,
 * deleting pending rows of given days, purging rows whose essential columns
 * are unusable, backfilling `anomesdia`, selecting pending rows, and the
 * per-batch check of pending rows against an index of the files on disk.
 */
module SrcUtilsStatus {
  import opened Wrappers
  import opened Text
  import opened Calendar
  import opened Fs
  import opened Store
  import opened SrcUtilsDates
  import opened SrcUtilsNames

  // ---------------------------------------------------------------- marking a download

  /** `UPDATE notas SET xml_baixado = 1, caminho_arquivo = ?, xml_vazio = ? WHERE cChaveNFe = ?`. */
  function MarcarLinha(rows: Rows, chave: string, caminho: string, vazio: bool): (r: Rows)
    ensures r.Keys == rows.Keys
    ensures forall k | k in rows && k != chave :: r[k] == rows[k]
    ensures chave in rows ==>
              r[chave] == rows[chave].(xmlBaixado := true, caminhoArquivo := Some(caminho), xmlVazio := vazio)
  {
    if chave in rows
    then rows[chave := rows[chave].(xmlBaixado := true, caminhoArquivo := Some(caminho), xmlVazio := vazio)]
    else rows
  }

  /**
   * The table after `atualizar_status_xml`: nothing changes for an empty
   * key, a path that does not exist or an empty path string; otherwise the
   * row of that key, and only it, is marked as downloaded at that path.
   */
  function StatusXmlApos(rows: Rows, fs: FileSystem, chave: string, caminho: Path, vazio: bool): (r: Rows)
    ensures chave == [] || !Exists(fs, caminho) ==> r == rows
    ensures r.Keys == rows.Keys
    ensures forall k | k in rows && k != chave :: r[k] == rows[k]
    ensures chave != [] && Exists(fs, caminho) && PathStr(caminho) != [] && chave in rows ==>
              r[chave].xmlBaixado && r[chave].caminhoArquivo == Some(PathStr(caminho)) && r[chave].xmlVazio == vazio
              && r[chave].(xmlBaixado := false, caminhoArquivo := None, xmlVazio := false)
                 == rows[chave].(xmlBaixado := false, caminhoArquivo := None, xmlVazio := false)
  {
    if chave == [] || !Exists(fs, caminho) || PathStr(caminho) == [] then rows
    else MarcarLinha(rows, chave, PathStr(caminho), vazio)
  }

  /** `atualizar_status_xml(db, chave, caminho, xml_str, rebaixado, xml_vazio)`; `xml_str` and `rebaixado` are unused. */
  method AtualizarStatusXml(t: Table, fs: FileSystem, chave: string, caminho: Path, xmlStr: string,
                            rebaixado: bool, xmlVazio: bool)
    modifies t
    ensures t.rows == StatusXmlApos(old(t.rows), fs, chave, caminho, xmlVazio)
  {
    if chave == [] {
      return;
    }
    var caminhoArquivo := PathStr(caminho);
    if !Exists(fs, caminho) {
      return;
    }
    if caminhoArquivo == [] {
      return;
    }
    t.rows := MarcarLinha(t.rows, chave, caminhoArquivo, xmlVazio);
  }

  /**
   * The table after `marcar_como_baixado`: like `atualizar_status_xml` but
   * without looking at the disk, so a path that does not exist is recorded too.
   */
  function MarcadoApos(rows: Rows, chave: string, caminho: Path, vazio: bool): (r: Rows)
    ensures chave == [] ==> r == rows
    ensures r.Keys == rows.Keys
    ensures forall k | k in rows && k != chave :: r[k] == rows[k]
    ensures chave != [] && chave in rows ==>
              r[chave].xmlBaixado && r[chave].caminhoArquivo == Some(PathStr(caminho)) && r[chave].xmlVazio == vazio
  {
    if chave == [] then rows else MarcarLinha(rows, chave, PathStr(caminho), vazio)
  }

  /** `marcar_como_baixado(db, chave, caminho, rebaixado, xml_vazio)`; `rebaixado` is ignored. */
  method MarcarComoBaixado(t: Table, chave: string, caminho: Path, rebaixado: bool, xmlVazio: bool)
    modifies t
    ensures t.rows == MarcadoApos(old(t.rows), chave, caminho, xmlVazio)
  {
    if chave == [] {
      return;
    }
    var caminhoArquivo := PathStr(caminho);
    t.rows := MarcarLinha(t.rows, chave, caminhoArquivo, xmlVazio);
  }

  /** The two agree wherever the file exists and its path is not empty. */
  lemma MarcadoAgreesWithStatusXml(rows: Rows, fs: FileSystem, chave: string, caminho: Path, vazio: bool)
    requires Exists(fs, caminho) && PathStr(caminho) != []
    ensures MarcadoApos(rows, chave, caminho, vazio) == StatusXmlApos(rows, fs, chave, caminho, vazio)
  {
  }

  // ---------------------------------------------------------------- deleting pending rows of some days

  /** A row `DELETE FROM notas WHERE xml_baixado = 0 AND dEmi IN (dias)` removes. */
  predicate AlvoLimpeza(row: Row, dias: seq<string>)
  {
    !row.xmlBaixado && row.dEmi.Some? && row.dEmi.value in dias
  }

  /** The table after `limpar_registros_invalidos_reprocessados`: no change for no days. */
  function Limpeza(rows: Rows, dias: seq<string>): (r: Rows)
    ensures r.Keys <= rows.Keys
    ensures forall k | k in r :: r[k] == rows[k]
    ensures forall k | k in rows :: k !in r <==> dias != [] && AlvoLimpeza(rows[k], dias)
  {
    if dias == [] then rows
    else map k | k in rows && !AlvoLimpeza(rows[k], dias) :: rows[k]
  }

  /** `limpar_registros_invalidos_reprocessados(db, dias)`: the number of rows deleted. */
  method LimparRegistrosInvalidosReprocessados(t: Table, dias: seq<string>) returns (removidos: nat)
    modifies t
    ensures t.rows == Limpeza(old(t.rows), dias)
    ensures removidos == |old(t.rows).Keys - t.rows.Keys|
  {
    if dias == [] {
      return 0;
    }
    var antes := t.rows;
    t.rows := map k | k in t.rows && !AlvoLimpeza(t.rows[k], dias) :: t.rows[k];
    removidos := |antes.Keys - t.rows.Keys|;
  }

  // ---------------------------------------------------------------- purging rows with unusable essential columns

  /**
   * `c IS NULL OR TRIM(c) = '' OR c = 0 OR TRIM(c) = '-' OR TRIM(c) = ' - '`
   * on a TEXT column, where the literal 0 is compared as the text `'0'`.
   */
  predicate TextoInvalido(v: Option<string>)
  {
    v.None? || TrimSpaces(v.value) == "" || v.value == "0" || TrimSpaces(v.value) == "-"
    || TrimSpaces(v.value) == " - "
  }

  /** The same condition on an INTEGER column: `TRIM` of an integer is its decimal text. */
  predicate InteiroInvalido(v: SqlVal)
  {
    match v
    case Null => true
    case Int(i) =>
      var t := TrimSpaces(IntToString(i));
      t == "" || i == 0 || t == "-" || t == " - "
    case Text(s) => TrimSpaces(s) == "" || TrimSpaces(s) == "-" || TrimSpaces(s) == " - "
  }

  /** Some essential column (`cChaveNFe`, `nIdNF`, `nIdPedido`, `dEmi`, `dReg`, `nNF`) is unusable. */
  predicate LinhaInvalida(chave: string, row: Row)
  {
    TextoInvalido(Some(chave)) || InteiroInvalido(row.nIdNF) || InteiroInvalido(row.nIdPedido)
    || TextoInvalido(row.dEmi) || TextoInvalido(row.dReg) || TextoInvalido(row.nNF)
  }

  /** A `dReg` value kept in the list of days to reprocess. */
  predicate DiaReprocessavel(d: Option<string>)
  {
    d.Some? && d.value != [] && Strip(d.value) !in {"", "-", " - ", "0", "0.0"}
  }

  /** The distinct `dReg` of the invalid rows, blank and zero markers left out. */
  function DiasInvalidos(rows: Rows): (ds: set<string>)
    ensures forall d | d in ds :: exists k | k in rows :: LinhaInvalida(k, rows[k]) && rows[k].dReg == Some(d)
    ensures forall k | k in rows && LinhaInvalida(k, rows[k]) && DiaReprocessavel(rows[k].dReg) ::
              rows[k].dReg.value in ds
    ensures forall d | d in ds :: DiaReprocessavel(Some(d))
  {
    set k | k in rows && LinhaInvalida(k, rows[k]) && DiaReprocessavel(rows[k].dReg) :: rows[k].dReg.value
  }

  /** The table with exactly the valid rows left, unchanged. */
  function Purga(rows: Rows): (r: Rows)
    ensures r.Keys <= rows.Keys
    ensures forall k | k in rows :: k in r <==> !LinhaInvalida(k, rows[k])
    ensures forall k | k in r :: r[k] == rows[k]
  {
    map k | k in rows && !LinhaInvalida(k, rows[k]) :: rows[k]
  }

  /** `remover_registros_com_campos_essenciais_invalidos_e_listar_dias(db)`, the days as a set. */
  method RemoverRegistrosComCamposEssenciaisInvalidos(t: Table) returns (dias: set<string>)
    modifies t
    ensures dias == DiasInvalidos(old(t.rows))
    ensures t.rows == Purga(old(t.rows))
  {
    dias := set k | k in t.rows && LinhaInvalida(k, t.rows[k]) && DiaReprocessavel(t.rows[k].dReg) :: t.rows[k].dReg.value;
    t.rows := map k | k in t.rows && !LinhaInvalida(k, t.rows[k]) :: t.rows[k];
  }

  /** `TRIM(c) = ' - '` never holds: the trimmed text neither starts nor ends with a space. */
  lemma TrimNeverSpaced(s: string)
    ensures TrimSpaces(s) != " - "
  {
    assert " - "[0] == ' ';
  }

  /** A stored integer is invalid exactly when it is 0. */
  lemma InteiroInvalidoIff(i: int)
    ensures InteiroInvalido(Int(i)) <==> i == 0
  {
    var s := IntToString(i);
    NoSpaceTrim(s);
    if i < 0 {
      assert |NatToString(-i)| > 0;
      assert |s| >= 2;
    }
  }

  /** The decimal text of an integer has no spaces at its ends, so `TRIM` keeps it. */
  lemma NoSpaceTrim(s: string)
    requires s == [] || (s[0] != ' ' && s[|s| - 1] != ' ')
    ensures TrimSpaces(s) == s
  {
  }

  // ---------------------------------------------------------------- anomesdia

  /** A row `atualizar_anomesdia` selects: a non-blank `dEmi` and no `anomesdia` yet (NULL or 0). */
  predicate SemAnomesdia(row: Row)
  {
    row.dEmi.Some? && row.dEmi.value != "" && row.dEmi.value != "-"
    && (row.anomesdia.None? || row.anomesdia.value == 0)
  }

  /** `ano, mes, dia = iso.split('-'); int(ano + mes + dia)`, or None where that raises. */
  function DigitosDaData(iso: string): Option<nat>
  {
    var p := Split(iso, '-');
    if |p| == 3 && p[0] + p[1] + p[2] != [] && AllDigits(p[0] + p[1] + p[2])
    then Some(NatOf(p[0] + p[1] + p[2]))
    else None
  }

  /** The `anomesdia` of a stored `dEmi`: its normalised date read as YYYYMMDD. */
  function AnomesdiaDe(dEmi: string): Option<nat>
  {
    match NormalizarData(Some(dEmi))
    case None => None
    case Some(iso) => DigitosDaData(iso)
  }

  /** The `(anomesdia, chave)` pairs the loop collects, by key. */
  function Atualizacoes(rows: Rows): (m: map<string, nat>)
    ensures forall k | k in m :: k in rows && SemAnomesdia(rows[k]) && AnomesdiaDe(rows[k].dEmi.value) == Some(m[k])
    ensures forall k | k in rows && SemAnomesdia(rows[k]) && AnomesdiaDe(rows[k].dEmi.value).Some? :: k in m
  {
    map k | k in rows && SemAnomesdia(rows[k]) && AnomesdiaDe(rows[k].dEmi.value).Some? ::
      AnomesdiaDe(rows[k].dEmi.value).value
  }

  /** `executemany("UPDATE ... SET anomesdia = ? WHERE cChaveNFe = ?", atualizacoes)`. */
  function AplicarAnomesdia(rows: Rows, ups: map<string, nat>): (r: Rows)
    ensures r.Keys == rows.Keys
    ensures forall k | k in rows && k !in ups :: r[k] == rows[k]
    ensures forall k | k in rows && k in ups :: r[k] == rows[k].(anomesdia := Some(ups[k]))
  {
    map k | k in rows :: if k in ups then rows[k].(anomesdia := Some(ups[k])) else rows[k]
  }

  /** `atualizar_anomesdia(db)`: the number of rows updated. */
  method AtualizarAnomesdia(t: Table) returns (atualizados: nat)
    modifies t
    ensures t.rows == AplicarAnomesdia(old(t.rows), Atualizacoes(old(t.rows)))
    ensures atualizados == |Atualizacoes(old(t.rows))|
  {
    var rows := t.rows;
    var registros := set k | k in rows && SemAnomesdia(rows[k]);
    if registros == {} {
      AtualizacoesUnicas(rows, registros, map[]);
      AplicarNada(rows);
      return 0;
    }
    var atualizacoes: map<string, nat> := map[];
    var erros := 0;
    var restantes := registros;
    while restantes != {}
      invariant restantes <= registros
      invariant forall k | k in atualizacoes :: k in registros - restantes && AnomesdiaDe(rows[k].dEmi.value) == Some(atualizacoes[k])
      invariant forall k | k in registros - restantes && AnomesdiaDe(rows[k].dEmi.value).Some? :: k in atualizacoes
      decreases |restantes|
    {
      var chave :| chave in restantes;
      var dEmi := rows[chave].dEmi.value;
      var anomesdia := AnomesdiaDe(dEmi);
      if anomesdia.Some? {
        atualizacoes := atualizacoes[chave := anomesdia.value];
      } else {
        erros := erros + 1;
      }
      restantes := restantes - {chave};
    }
    AtualizacoesUnicas(rows, registros, atualizacoes);
    if atualizacoes != map[] {
      t.rows := AplicarAnomesdia(rows, atualizacoes);
      return |atualizacoes|;
    }
    AplicarNada(rows);
    return 0;
  }

  /** Applying no update leaves the table as it is. */
  lemma AplicarNada(rows: Rows)
    ensures AplicarAnomesdia(rows, map[]) == rows
  {
  }

  /** The map the loop collects is the one `Atualizacoes` describes. */
  lemma AtualizacoesUnicas(rows: Rows, registros: set<string>, m: map<string, nat>)
    requires registros == set k | k in rows && SemAnomesdia(rows[k])
    requires forall k | k in m :: k in registros && AnomesdiaDe(rows[k].dEmi.value) == Some(m[k])
    requires forall k | k in registros && AnomesdiaDe(rows[k].dEmi.value).Some? :: k in m
    ensures m == Atualizacoes(rows)
  {
  }

  /** Reading two more digits multiplies the value by a hundred. */
  lemma NatOfAppend2(a: string, b: string)
    requires AllDigits(a) && AllDigits(b) && |b| == 2
    ensures AllDigits(a + b) && NatOf(a + b) == 100 * NatOf(a) + NatOf(b)
  {
    var s := a + b;
    assert s[..|s| - 1] == a + [b[0]];
    assert (a + [b[0]])[..|a|] == a;
    assert b[..1][..0] == [];
    assert NatOf(b[..1]) == DigitValue(b[0]);
  }

  /** The `anomesdia` of a date is `year * 10000 + month * 100 + day`. */
  lemma DigitosDaDataIso(d: Date)
    requires ValidDate(d)
    ensures DigitosDaData(FormatIso(d)) == Some(d.year * 10000 + d.month * 100 + d.day)
  {
    var y, m, dd := Pad4(d.year), Pad2(d.month), Pad2(d.day);
    DigitsHaveNo(y, '-');
    DigitsHaveNo(m, '-');
    DigitsHaveNo(dd, '-');
    assert FormatIso(d) == y + ['-'] + m + ['-'] + dd;
    SplitThree(y, m, dd, '-');
    NatOfAppend2(y, m);
    NatOfAppend2(y + m, dd);
    Pad4Value(d.year);
    Pad2Value(d.month);
    Pad2Value(d.day);
  }

  /** A `dEmi` that normalises to a date gets that date's `anomesdia`. */
  lemma AnomesdiaDeDate(dEmi: string, d: Date)
    requires ValidDate(d) && NormalizarData(Some(dEmi)) == Some(FormatIso(d))
    ensures AnomesdiaDe(dEmi) == Some(d.year * 10000 + d.month * 100 + d.day)
  {
    DigitosDaDataIso(d);
  }

  /** A stored `dEmi` gets an `anomesdia` exactly when it normalises, and the value is never 0. */
  lemma AnomesdiaDeSome(dEmi: string)
    ensures AnomesdiaDe(dEmi).Some? <==> NormalizarData(Some(dEmi)).Some?
    ensures AnomesdiaDe(dEmi).Some? ==> AnomesdiaDe(dEmi).value >= 10101
  {
    NormalizarDataIsIso(Some(dEmi));
    if NormalizarData(Some(dEmi)).Some? {
      var d :| ValidDate(d) && NormalizarData(Some(dEmi)).value == FormatIso(d);
      AnomesdiaDeDate(dEmi, d);
    }
  }

  /** A second run finds nothing to update: every value written is non-zero. */
  lemma AtualizarAnomesdiaIdempotent(rows: Rows)
    ensures Atualizacoes(AplicarAnomesdia(rows, Atualizacoes(rows))) == map[]
  {
    var ups := Atualizacoes(rows);
    var after := AplicarAnomesdia(rows, ups);
    forall k | k in after
      ensures !(SemAnomesdia(after[k]) && AnomesdiaDe(after[k].dEmi.value).Some?)
    {
      if k in ups {
        AnomesdiaDeSome(rows[k].dEmi.value);
      }
    }
    assert Atualizacoes(after).Keys == {};
  }

  // ---------------------------------------------------------------- pending rows

  /** The columns `obter_registros_pendentes` selects. */
  datatype Pendente = Pendente(nIdNF: SqlVal, cChaveNFe: string, dEmi: Option<string>,
                               cnpjCpf: Option<string>, cRazao: Option<string>)

  function PendenteDe(chave: string, row: Row): Pendente
  {
    Pendente(row.nIdNF, chave, row.dEmi, row.cnpjCpf, row.cRazao)
  }

  /** The normalisation of one filter day: blank and unparseable days are dropped. */
  function DiaNormalizado(data: string): (r: seq<string>)
    ensures |r| <= 1
  {
    if data != [] && Strip(data) != [] && NormalizarData(Some(Strip(data))).Some?
    then [NormalizarData(Some(Strip(data))).value]
    else []
  }

  /** `dias_normalizados` after the loop over `dias_filtrar`. */
  function DiasNormalizados(dias: seq<string>): (ds: seq<string>)
    ensures |ds| <= |dias|
  {
    if dias == [] then [] else DiasNormalizados(dias[..|dias| - 1]) + DiaNormalizado(dias[|dias| - 1])
  }

  /** Every filter day that survives is an ISO date that normalises to itself. */
  lemma {:induction false} DiasNormalizadosIso(dias: seq<string>)
    ensures forall i | 0 <= i < |DiasNormalizados(dias)| ::
              NormalizarData(Some(DiasNormalizados(dias)[i])) == Some(DiasNormalizados(dias)[i])
  {
    if dias != [] {
      DiasNormalizadosIso(dias[..|dias| - 1]);
      var data := dias[|dias| - 1];
      NormalizarDataIdempotent(Some(Strip(data)));
    }
  }

  /** The rows `WHERE xml_baixado = 0 [AND dEmi IN (dias)]` selects: every row when unfiltered, none when no day survives. */
  function Pendentes(rows: Rows, dias: seq<string>): (r: set<Pendente>)
    ensures forall p | p in r :: p.cChaveNFe in rows && PendenteDe(p.cChaveNFe, rows[p.cChaveNFe]) == p
                                 && !rows[p.cChaveNFe].xmlBaixado
    ensures dias == [] ==> forall k | k in rows && !rows[k].xmlBaixado :: PendenteDe(k, rows[k]) in r
    ensures dias != [] ==> forall p | p in r :: p.dEmi.Some? && p.dEmi.value in DiasNormalizados(dias)
    ensures dias != [] ==> forall k | k in rows && AlvoLimpeza(rows[k], DiasNormalizados(dias)) :: PendenteDe(k, rows[k]) in r
  {
    if dias == [] then
      set k | k in rows && !rows[k].xmlBaixado :: PendenteDe(k, rows[k])
    else
      var ds := DiasNormalizados(dias);
      if ds == [] then {}
      else set k | k in rows && AlvoLimpeza(rows[k], ds) :: PendenteDe(k, rows[k])
  }

  /** `obter_registros_pendentes(db, dias_filtrar)`, the rows as a set; `[]` stands for no filter. */
  method ObterRegistrosPendentes(t: Table, diasFiltrar: seq<string>) returns (r: set<Pendente>)
    ensures r == Pendentes(t.rows, diasFiltrar)
  {
    if diasFiltrar == [] {
      return set k | k in t.rows && !t.rows[k].xmlBaixado :: PendenteDe(k, t.rows[k]);
    }
    var diasNormalizados: seq<string> := [];
    var i := 0;
    while i < |diasFiltrar|
      invariant 0 <= i <= |diasFiltrar|
      invariant diasNormalizados == DiasNormalizados(diasFiltrar[..i])
    {
      var data := diasFiltrar[i];
      assert diasFiltrar[..i + 1][..i] == diasFiltrar[..i];
      if data != [] && Strip(data) != [] {
        var dataNormalizada := NormalizarData(Some(Strip(data)));
        if dataNormalizada.Some? {
          diasNormalizados := diasNormalizados + [dataNormalizada.value];
        }
      }
      i := i + 1;
    }
    assert diasFiltrar[..i] == diasFiltrar;
    if diasNormalizados == [] {
      return {};
    }
    r := set k | k in t.rows && AlvoLimpeza(t.rows[k], diasNormalizados) :: PendenteDe(k, t.rows[k]);
  }

  // ---------------------------------------------------------------- checking pending rows against the index

  /** A pending row as the verification query returns it. */
  datatype Registro = Registro(chave: string, nNF: Option<string>, dEmi: Option<string>)

  /** The columns to update for a row whose file was found. */
  datatype NovosDados = NovosDados(caminhoArquivo: string, xmlVazio: bool, dEmi: Option<string>, nNF: Option<string>)

  datatype Verificacao =
    | NaoEncontrado(chave: string)
    | ArquivoRemovido(chave: string)
    | Encontrado(chave: string, novos: NovosDados, tamanho: nat)

  /** The size below which a file counts as empty. */
  const TamanhoMinimo := 100

  /** A column filled from the file name only when the row's own value is falsy and the name's is not. */
  function Preencher(db: Option<string>, extraido: Option<string>): (r: Option<string>)
    ensures r.Some? <==> Falsy(db) && !Falsy(extraido)
    ensures r.Some? ==> r == extraido
  {
    if Falsy(db) && !Falsy(extraido) then extraido else None
  }

  /** The verdict of `processar_lote_verificacao` on one row, given the index of key to (path, name data). */
  function Verificar(fs: FileSystem, index: map<string, (Path, NameData)>, reg: Registro): (v: Verificacao)
    ensures v.chave == reg.chave
    ensures v.NaoEncontrado? <==> reg.chave !in index
    ensures v.Encontrado? <==> reg.chave in index && index[reg.chave].0 in fs.files
    ensures v.Encontrado? ==> v.tamanho == |fs.files[index[reg.chave].0]|
                              && v.novos.caminhoArquivo == PathStr(index[reg.chave].0)
                              && (v.novos.xmlVazio <==> v.tamanho < TamanhoMinimo)
    ensures v.Encontrado? && index[reg.chave].1.NoNameData? ==> v.novos.dEmi.None? && v.novos.nNF.None?
    ensures v.Encontrado? && v.novos.dEmi.Some? ==> Falsy(reg.dEmi)
    ensures v.Encontrado? && v.novos.nNF.Some? ==> Falsy(reg.nNF)
  {
    if reg.chave !in index then NaoEncontrado(reg.chave)
    else
      var (caminho, dados) := index[reg.chave];
      if caminho !in fs.files then ArquivoRemovido(reg.chave)
      else
        var tamanho := Size(fs, caminho);
        var dEmi := if dados.NameData? then Preencher(reg.dEmi, dados.dEmi) else None;
        var nNF := if dados.NameData? then Preencher(reg.nNF, Some(dados.nNF)) else None;
        Encontrado(reg.chave, NovosDados(PathStr(caminho), tamanho < TamanhoMinimo, dEmi, nNF), tamanho)
  }

  /** `processar_lote_verificacao(lote_registros)`: one verdict per row, in order. */
  method ProcessarLoteVerificacao(fs: FileSystem, index: map<string, (Path, NameData)>, lote: seq<Registro>)
    returns (resultados: seq<Verificacao>)
    ensures |resultados| == |lote|
    ensures forall i | 0 <= i < |lote| :: resultados[i] == Verificar(fs, index, lote[i])
  {
    resultados := [];
    for i := 0 to |lote|
      invariant |resultados| == i
      invariant forall j | 0 <= j < i :: resultados[j] == Verificar(fs, index, lote[j])
    {
      var registro := lote[i];
      if registro.chave !in index {
        resultados := resultados + [NaoEncontrado(registro.chave)];
        continue;
      }
      var (xmlPath, dadosExtraidos) := index[registro.chave];
      if xmlPath !in fs.files {
        resultados := resultados + [ArquivoRemovido(registro.chave)];
        continue;
      }
      var tamanhoArquivo := Size(fs, xmlPath);
      var novosDados := NovosDados(PathStr(xmlPath), tamanhoArquivo < TamanhoMinimo, None, None);
      if dadosExtraidos.NameData? {
        if Falsy(registro.dEmi) && !Falsy(dadosExtraidos.dEmi) {
          novosDados := novosDados.(dEmi := dadosExtraidos.dEmi);
        }
        if Falsy(registro.nNF) && !Falsy(Some(dadosExtraidos.nNF)) {
          novosDados := novosDados.(nNF := Some(dadosExtraidos.nNF));
        }
      }
      resultados := resultados + [Encontrado(registro.chave, novosDados, tamanhoArquivo)];
    }
  }
}
