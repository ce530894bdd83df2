/**
 * The root `utils.py`: the older helpers the root scripts import.  The path
 * of a note comes from a `dd/mm/yyyy` date alone, the key is used as
 * given, and rows are inserted with the values exactly as the record holds
 * them, bound to the table's column types.
 */
module RootUtils {
  import opened Wrappers
  import opened Text
  import opened Calendar
  import opened Json
  import opened Fs
  import opened Store
  import opened SrcUtilsNames
  import opened SrcUtilsResolver

  // ---------------------------------------------------------------- gerar_xml_path

  /** `f"{v}"` of a text column: `None` prints as `None`. */
  function Texto(v: Option<string>): string
  {
    if v.Some? then v.value else "None"
  }

  /**
   * `gerar_xml_path(chave, data_emissao, num_nfe, base_dir)`: only
   * `dd/mm/yyyy` is accepted; `None` is a TypeError, any other text a
   * ValueError.  The name is `{num}_{YYYYMMDD}_{chave}.xml`, the key as given.
   */
  function GerarXmlPath(chave: string, dataEmissao: Option<string>, num: Option<string>, base: Path)
    : (r: Outcome<(Path, Path)>)
    ensures dataEmissao.None? ==> r == Raise(TypeError)
    ensures dataEmissao.Some? ==> (r.Ok? <==> Strptime(dataEmissao.value, DayMonthYear).Some?)
    ensures dataEmissao.Some? && r.Raise? ==> r.exc == ValueError
    ensures r.Ok? ==> r.value.1 == r.value.0 + [Name(r.value.1)] && |r.value.0| == |base| + 3
                      && r.value.0[..|base|] == base
  {
    if dataEmissao.None? then Raise(TypeError)
    else
      match Strptime(dataEmissao.value, DayMonthYear)
      case None => Raise(ValueError)
      case Some(d) =>
        var pasta := DayPath(base, d);
        Ok((pasta, pasta + [XmlName(Texto(num), d, chave)]))
  }

  /** For a date printed as `dd/mm/yyyy`, the folder is that day's and the name carries the key unchanged. */
  lemma GerarXmlPathBr(chave: string, d: Date, num: Option<string>, base: Path)
    requires ValidDate(d)
    ensures GerarXmlPath(chave, Some(FormatBr(d)), num, base).Ok?
    ensures GerarXmlPath(chave, Some(FormatBr(d)), num, base).value.0 == DayPath(base, d)
    ensures GerarXmlPath(chave, Some(FormatBr(d)), num, base).value.1 == DayPath(base, d) + [XmlName(Texto(num), d, chave)]
  {
    ParseFormatBr(d);
  }

  /** An ISO date is refused: it starts with four digits, where `%d/%m/%Y` has a `/` by the third character. */
  lemma GerarXmlPathIso(chave: string, d: Date, num: Option<string>, base: Path)
    requires ValidDate(d)
    ensures GerarXmlPath(chave, Some(FormatIso(d)), num, base) == Raise(ValueError)
  {
    IsoNotBr(d);
  }

  lemma IsoNotBr(d: Date)
    requires ValidDate(d)
    ensures Strptime(FormatIso(d), DayMonthYear).None?
  {
    var s := FormatIso(d);
    var y := Pad4(d.year);
    assert s[1] == y[1] && s[2] == y[2];
    assert IsDigit(s[1]) && IsDigit(s[2]);
    if Strptime(s, DayMonthYear).Some? {
      BrShape(s);
    }
  }

  /** Whatever `%d/%m/%Y` accepts has a `/` within its first three characters. */
  lemma BrShape(s: string)
    requires Strptime(s, DayMonthYear).Some?
    ensures exists i | 1 <= i <= 2 :: i < |s| && s[i] == '/'
  {
    var g0 := Groups([], [], []);
    var m := MatchItems(DayMonthYear, s, 0, g0);
    assert m.Some?;
    DayThenSlash(s, g0);
  }

  lemma DayThenSlash(s: string, g: Groups)
    requires MatchItems(DayMonthYear, s, 0, g).Some?
    ensures exists i | 1 <= i <= 2 :: i < |s| && s[i] == '/'
  {
    var alts := Alternatives(Day);
    var rest := DayMonthYear[1..];
    assert DayMonthYear[0] == Dir(Day);
    assert MatchItems(DayMonthYear, s, 0, g) == MatchAlternatives(alts, Day, rest, s, 0, g);
    FirstAltSlash(alts, rest, s, g);
  }

  lemma {:induction false} FirstAltSlash(alts: seq<seq<CharClass>>, rest: seq<FormatItem>, s: string, g: Groups)
    requires forall k | 0 <= k < |alts| :: 1 <= |alts[k]| <= 2
    requires rest == DayMonthYear[1..]
    requires MatchAlternatives(alts, Day, rest, s, 0, g).Some?
    ensures exists i | 1 <= i <= 2 :: i < |s| && s[i] == '/'
    decreases |alts|
  {
    var n := |alts[0]|;
    if MatchesAt(alts[0], s, 0) && MatchItems(rest, s, n, Capture(g, Day, s[0..n])).Some? {
      SlashAt(rest, s, n, Capture(g, Day, s[0..n]));
    } else {
      FirstAltSlash(alts[1..], rest, s, g);
    }
  }

  lemma SlashAt(rest: seq<FormatItem>, s: string, i: nat, g: Groups)
    requires rest == DayMonthYear[1..] && 1 <= i <= 2
    requires MatchItems(rest, s, i, g).Some?
    ensures i < |s| && s[i] == '/'
  {
    assert rest[0] == Lit('/');
  }

  // ---------------------------------------------------------------- atualizar_status_xml

  /** `xml_str.strip() == ''`: the file written is blank. */
  predicate XmlVazio(xmlStr: string) { Strip(xmlStr) == [] }

  /**
   * The table after `atualizar_status_xml(db, chave, caminho, xml_str,
   * rebaixado)`: the row of the key, if any, is marked downloaded at that
   * path, re-downloaded as `rebaixado` says and empty as the text says.
   */
  function StatusXmlApos(rows: Rows, chave: string, caminho: Path, xmlStr: string, rebaixado: bool): (r: Rows)
    ensures chave == [] || chave !in rows ==> r == rows
    ensures r.Keys == rows.Keys
    ensures forall k | k in rows && k != chave :: r[k] == rows[k]
  {
    if chave == [] || chave !in rows then rows
    else rows[chave := rows[chave].(xmlBaixado := true, caminhoArquivo := Some(PathStr(caminho)),
                                    baixadoNovamente := rebaixado, xmlVazio := XmlVazio(xmlStr))]
  }

  /** The marked row: every status column set, the empty flag exactly for blank text, nothing else moved. */
  lemma StatusXmlMarca(rows: Rows, chave: string, caminho: Path, xmlStr: string, rebaixado: bool)
    requires chave != [] && chave in rows
    ensures var r := StatusXmlApos(rows, chave, caminho, xmlStr, rebaixado)[chave];
            r.xmlBaixado && r.caminhoArquivo == Some(PathStr(caminho)) && r.baixadoNovamente == rebaixado
            && (r.xmlVazio <==> forall i | 0 <= i < |xmlStr| :: IsPyWhitespace(xmlStr[i]))
            && r.(xmlBaixado := false, caminhoArquivo := None, baixadoNovamente := false, xmlVazio := false)
               == rows[chave].(xmlBaixado := false, caminhoArquivo := None, baixadoNovamente := false, xmlVazio := false)
  {
    StripEmptyIff(xmlStr);
  }

  method AtualizarStatusXml(t: Table, chave: string, caminho: Path, xmlStr: string, rebaixado: bool)
    modifies t
    ensures t.rows == StatusXmlApos(old(t.rows), chave, caminho, xmlStr, rebaixado)
  {
    if chave == [] {
      return;
    }
    var caminhoArquivo := PathStr(caminho);
    var xmlVazio := Strip(xmlStr) == [];
    var baixadoNovamente := rebaixado;
    if chave in t.rows {
      t.rows := t.rows[chave := t.rows[chave].(xmlBaixado := true, caminhoArquivo := Some(caminhoArquivo),
                                               baixadoNovamente := baixadoNovamente, xmlVazio := xmlVazio)];
    }
  }

  // ---------------------------------------------------------------- the inserted row

  /** The text columns of the insert, in the statement's order. */
  const ColunasTexto: seq<string> :=
    ["dCan", "dEmi", "dInut", "dReg", "dSaiEnt", "hEmi", "hSaiEnt", "mod", "nNF",
     "serie", "tpAmb", "tpNF", "cnpj_cpf", "cRazao"]

  /** The values `registro.get(c)` bound to the TEXT columns `nomes`, or the binding error. */
  function Textos(r: Obj, nomes: seq<string>): (c: Outcome<seq<Option<string>>>)
    ensures c.Ok? ==> |c.value| == |nomes|
    ensures c.Raise? ==> c.exc == BindingError
  {
    if nomes == [] then Ok([])
    else
      match TextColumn(Get(r, nomes[0]))
      case Raise(e) => Raise(BindingError)
      case Ok(v) =>
        match Textos(r, nomes[1..])
        case Raise(e) => Raise(BindingError)
        case Ok(vs) => Ok([v] + vs)
  }

  /** A value sqlite3 can bind: `vNF` goes to a REAL column, where only a list or a dict fails. */
  predicate Ligavel(j: Json) { !j.JList? && !j.JObj? }

  /**
   * The row `salvar_nota` inserts: the values as the record holds them,
   * no path, not downloaded, not re-downloaded, not empty.
   */
  function LinhaRaiz(r: Obj): (row: Outcome<Row>)
    ensures row.Raise? ==> row.exc == BindingError
    ensures row.Ok? ==> !row.value.xmlBaixado && row.value.caminhoArquivo.None? && !row.value.baixadoNovamente
                         && !row.value.xmlVazio && row.value.anomesdia.None?
  {
    match IntColumn(Get(r, "nIdNF"))
    case Raise(_) => Raise(BindingError)
    case Ok(nIdNF) =>
      match IntColumn(Get(r, "nIdPedido"))
      case Raise(_) => Raise(BindingError)
      case Ok(nIdPedido) =>
        match Textos(r, ColunasTexto)
        case Raise(_) => Raise(BindingError)
        case Ok(c) =>
          if !Ligavel(Get(r, "vNF")) then Raise(BindingError)
          else Ok(Row(nIdNF, nIdPedido, c[0], c[1], c[2], c[3], c[4], c[5], c[6], c[7], c[8], c[9], c[10],
                      c[11], c[12], c[13], false, None, None, false, false))
  }

  /** The primary key a truthy key value is stored under: its text. */
  function ChaveTexto(r: Obj): Outcome<string>
  {
    match TextColumn(Get(r, "cChaveNFe"))
    case Raise(_) => Raise(BindingError)
    case Ok(v) => if v.Some? then Ok(v.value) else Raise(BindingError)
  }

  /** The (key, row) pair bound for a record, or the binding error. */
  function Tupla(r: Obj): (res: Outcome<(string, Row)>)
    ensures res.Raise? ==> res.exc == BindingError
  {
    match ChaveTexto(r)
    case Raise(_) => Raise(BindingError)
    case Ok(k) =>
      match LinhaRaiz(r)
      case Raise(_) => Raise(BindingError)
      case Ok(row) => Ok((k, row))
  }

  // ---------------------------------------------------------------- salvar_nota

  /**
   * The table after `salvar_nota(registro)`: a keyless record is ignored; a
   * duplicate key raises IntegrityError, which is swallowed; a value sqlite3
   * cannot bind raises, and that escapes.
   */
  function SalvarNotaApos(rows: Rows, registro: Obj): (r: Outcome<Rows>)
    ensures !Truthy(Get(registro, "cChaveNFe")) ==> r.Ok? && r.value == rows
    ensures r.Raise? ==> r.exc == BindingError
    ensures r.Ok? ==> rows.Keys <= r.value.Keys && forall k | k in rows :: r.value[k] == rows[k]
  {
    if !Truthy(Get(registro, "cChaveNFe")) then Ok(rows)
    else
      match Tupla(registro)
      case Raise(e) => Raise(e)
      case Ok(kr) => Ok(InsertOrIgnore(rows, kr.0, kr.1))
  }

  /** A record with a key already stored changes nothing, whether or not it binds. */
  lemma SalvarNotaDuplicada(rows: Rows, registro: Obj)
    requires ChaveTexto(registro).Ok? && ChaveTexto(registro).value in rows
    ensures SalvarNotaApos(rows, registro).Ok? ==> SalvarNotaApos(rows, registro).value == rows
  {
  }

  /** A new key that binds adds exactly its row. */
  lemma SalvarNotaNova(rows: Rows, registro: Obj)
    requires Truthy(Get(registro, "cChaveNFe")) && Tupla(registro).Ok? && Tupla(registro).value.0 !in rows
    ensures SalvarNotaApos(rows, registro).Ok?
    ensures SalvarNotaApos(rows, registro).value == rows[Tupla(registro).value.0 := Tupla(registro).value.1]
  {
  }

  method SalvarNota(t: Table, registro: Obj) returns (res: Outcome<()>)
    modifies t
    ensures res.Ok? <==> SalvarNotaApos(old(t.rows), registro).Ok?
    ensures res.Raise? ==> res.exc == BindingError && t.rows == old(t.rows)
    ensures res.Ok? ==> t.rows == SalvarNotaApos(old(t.rows), registro).value
  {
    var chave := Get(registro, "cChaveNFe");
    if !Truthy(chave) {
      return Ok(());
    }
    var tupla := Tupla(registro);
    if tupla.Raise? {
      return Raise(BindingError);
    }
    if tupla.value.0 in t.rows {
      // IntegrityError: the existing row stays
      return Ok(());
    }
    t.rows := t.rows[tupla.value.0 := tupla.value.1];
    return Ok(());
  }

  // ---------------------------------------------------------------- salvar_varias_notas

  /** `dados`: the records that have a key, in order. */
  function ComChave(regs: seq<Obj>): (ds: seq<Obj>)
    ensures |ds| <= |regs|
    ensures forall i | 0 <= i < |ds| :: Truthy(Get(ds[i], "cChaveNFe"))
  {
    if regs == [] then []
    else ComChave(regs[..|regs| - 1]) + (if Truthy(Get(regs[|regs| - 1], "cChaveNFe")) then [regs[|regs| - 1]] else [])
  }

  /** The records kept are exactly those of the input that have a key, in their order. */
  lemma {:induction false} ComChaveMembros(regs: seq<Obj>, r: Obj)
    ensures r in ComChave(regs) <==> r in regs && Truthy(Get(r, "cChaveNFe"))
    decreases |regs|
  {
    if regs != [] {
      var front := regs[..|regs| - 1];
      ComChaveMembros(front, r);
      assert regs == front + [regs[|regs| - 1]];
    }
  }

  /** The bound parameter rows of `executemany`, failing at the first record that does not bind. */
  function Tuplas(ds: seq<Obj>): (ts: Outcome<seq<(string, Row)>>)
    ensures ts.Ok? ==> |ts.value| == |ds|
    ensures ts.Ok? ==> forall i | 0 <= i < |ds| :: Tupla(ds[i]).Ok? && ts.value[i] == Tupla(ds[i]).value
  {
    if ds == [] then Ok([])
    else
      match Tupla(ds[0])
      case Raise(e) => Raise(e)
      case Ok(t0) =>
        match Tuplas(ds[1..])
        case Raise(e) => Raise(e)
        case Ok(rest) => Ok([t0] + rest)
  }

  /**
   * The table after `salvar_varias_notas(registros)`: nothing when no record
   * has a key; otherwise one `INSERT OR IGNORE` per record, first row of a
   * key winning, unless some record does not bind, when the whole
   * transaction is rolled back and the error logged.
   */
  function VariasNotasApos(rows: Rows, regs: seq<Obj>): (r: Rows)
    ensures rows.Keys <= r.Keys && forall k | k in rows :: r[k] == rows[k]
  {
    var ds := ComChave(regs);
    if ds == [] then rows
    else
      match Tuplas(ds)
      case Raise(_) => rows
      case Ok(ts) => InsertAllOrIgnore(rows, ts)
  }

  /** The keys added are exactly the keys of the kept records, when they all bind. */
  lemma VariasNotasChaves(rows: Rows, regs: seq<Obj>)
    requires Tuplas(ComChave(regs)).Ok?
    ensures VariasNotasApos(rows, regs).Keys == rows.Keys + BatchKeys(Tuplas(ComChave(regs)).value)
  {
    InsertAllKeys(rows, Tuplas(ComChave(regs)).value);
  }

  method SalvarVariasNotas(t: Table, registros: seq<Obj>)
    modifies t
    ensures t.rows == VariasNotasApos(old(t.rows), registros)
  {
    var dados: seq<Obj> := [];
    for i := 0 to |registros|
      invariant dados == ComChave(registros[..i])
    {
      var r := registros[i];
      assert registros[..i + 1][..i] == registros[..i];
      var chave := Get(r, "cChaveNFe");
      if !Truthy(chave) {
        continue;
      }
      dados := dados + [r];
    }
    assert registros[..|registros|] == registros;
    if dados == [] {
      return;
    }
    var ts := Tuplas(dados);
    if ts.Raise? {
      return;
    }
    t.rows := InsertAllOrIgnore(t.rows, ts.value);
  }
}
