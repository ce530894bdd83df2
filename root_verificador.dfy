/**
 * The root `verificador_xmls.py`: the expected path of a note comes from a
 * `dd/mm/yyyy` date alone, a note counts as present when that path exists,
 * and the keys found are marked as downloaded in one `executemany`.  As
 * written, the pass never reaches the disk: the thread pool is sized with
 * `os.cpu_count()` and `os` is not imported, so the NameError lands in the
 * outer handler and the table is left as it was.
 */
module RootVerificador {
  import opened Wrappers
  import opened Text
  import opened Calendar
  import opened Fs
  import opened Store
  import opened SrcUtilsNames
  import opened SrcUtilsResolver
  import RootUtils

  /** `Path("resultado")`. */
  const Resultado: Path := ["resultado"]

  /**
   * `construir_caminho_xml(chave, data_emissao, num_nfe)`: the path
   * `resultado/YYYY/MM/DD/{num}_{YYYYMMDD}_{chave}.xml`, or None when the
   * date is not `dd/mm/yyyy` (or is missing, a TypeError the handler catches).
   */
  function ConstruirCaminhoXml(chave: string, dataEmissao: Option<string>, num: Option<string>): (r: Option<Path>)
    ensures r.Some? <==> dataEmissao.Some? && Strptime(dataEmissao.value, DayMonthYear).Some?
  {
    if dataEmissao.None? then None
    else
      match Strptime(dataEmissao.value, DayMonthYear)
      case None => None
      case Some(d) => Some(DayPath(Resultado, d) + [XmlName(RootUtils.Texto(num), d, chave)])
  }

  /** It is the file part of the root `gerar_xml_path` under `resultado`, and None exactly where that raises. */
  lemma ConstruirCaminhoXmlIsGerarXmlPath(chave: string, dataEmissao: Option<string>, num: Option<string>)
    ensures ConstruirCaminhoXml(chave, dataEmissao, num).Some? <==> RootUtils.GerarXmlPath(chave, dataEmissao, num, Resultado).Ok?
    ensures ConstruirCaminhoXml(chave, dataEmissao, num).Some? ==>
              ConstruirCaminhoXml(chave, dataEmissao, num).value == RootUtils.GerarXmlPath(chave, dataEmissao, num, Resultado).value.1
  {
  }

  /** A date printed as `dd/mm/yyyy` lands in that day's folder under `resultado`. */
  lemma ConstruirCaminhoXmlBr(chave: string, d: Date, num: Option<string>)
    requires ValidDate(d)
    ensures ConstruirCaminhoXml(chave, Some(FormatBr(d)), num) == Some(["resultado", YearDir(d), MonthDir(d), DayDir(d), XmlName(RootUtils.Texto(num), d, chave)])
  {
    ParseFormatBr(d);
    assert DayPath(Resultado, d) == ["resultado", YearDir(d), MonthDir(d), DayDir(d)];
    assert DayPath(Resultado, d) + [XmlName(RootUtils.Texto(num), d, chave)]
        == ["resultado", YearDir(d), MonthDir(d), DayDir(d), XmlName(RootUtils.Texto(num), d, chave)];
  }

  /** `verificar_arquivo_no_disco(chave, data_emissao, num_nfe)`: the key when the path exists; no size check. */
  function VerificarArquivoNoDisco(fs: FileSystem, chave: string, dataEmissao: Option<string>, num: Option<string>)
    : (r: Option<string>)
    ensures r.Some? <==> ConstruirCaminhoXml(chave, dataEmissao, num).Some?
                         && Exists(fs, ConstruirCaminhoXml(chave, dataEmissao, num).value)
    ensures r.Some? ==> r.value == chave
  {
    var caminho := ConstruirCaminhoXml(chave, dataEmissao, num);
    if caminho.Some? && Exists(fs, caminho.value) then Some(chave) else None
  }

  /** The keys of the pending rows whose file exists: what `atualizacoes` holds, in some order. */
  function Encontradas(fs: FileSystem, rows: Rows): (s: set<string>)
    ensures forall k | k in s :: k in rows && !rows[k].xmlBaixado && k != []
  {
    set k | k in rows && !rows[k].xmlBaixado && k != []
              && VerificarArquivoNoDisco(fs, k, rows[k].dEmi, rows[k].nNF).Some?
  }

  /** The table once the keys found are marked: `xml_baixado = 1` for them, nothing else. */
  function MarcarEncontradas(rows: Rows, ks: set<string>): (r: Rows)
    ensures r.Keys == rows.Keys
    ensures forall k | k in rows :: r[k] == if k in ks then rows[k].(xmlBaixado := true) else rows[k]
  {
    map k | k in rows :: if k in ks then rows[k].(xmlBaixado := true) else rows[k]
  }

  // ---------------------------------------------------------------- as written

  /** The body of `verificar_arquivos_existentes` as written: `os.cpu_count()` raises NameError before any check. */
  function CorpoComoEscrito(rows: Rows, fs: FileSystem): (r: Outcome<Rows>)
    ensures r.Raise? && r.exc == NameError
  {
    Raise(NameError)
  }

  /** The table after the pass as written: the handler logs the NameError and nothing is updated. */
  function VerificacaoComoEscrita(rows: Rows, fs: FileSystem): (r: Rows)
  {
    match CorpoComoEscrito(rows, fs)
    case Ok(after) => after
    case Raise(_) => rows
  }

  method VerificarArquivosExistentesComoEscrito(t: Table, fs: FileSystem)
    modifies t
    ensures t.rows == VerificacaoComoEscrita(old(t.rows), fs)
  {
    var corpo := CorpoComoEscrito(t.rows, fs);
    if corpo.Raise? {
      // the outer handler logs the NameError
      return;
    }
  }

  /**
   * A pending note whose file is in its day folder stays pending as
   * written, although the check would find it.
   */
  lemma ComoEscritaNaoMarca(rows: Rows, fs: FileSystem, k: string, d: Date)
    requires ValidDate(d) && k != [] && k in rows && !rows[k].xmlBaixado && rows[k].dEmi == Some(FormatBr(d))
    requires Exists(fs, ["resultado", YearDir(d), MonthDir(d), DayDir(d), XmlName(RootUtils.Texto(rows[k].nNF), d, k)])
    ensures !VerificacaoComoEscrita(rows, fs)[k].xmlBaixado
    ensures k in Encontradas(fs, rows) && VerificacaoApos(rows, fs)[k].xmlBaixado
  {
    ConstruirCaminhoXmlBr(k, d, rows[k].nNF);
  }

  // ---------------------------------------------------------------- with `os` imported

  /** The table after the pass once `os` is imported: the keys found are marked, when there are any. */
  function VerificacaoApos(rows: Rows, fs: FileSystem): (r: Rows)
    ensures r.Keys == rows.Keys
  {
    var ks := Encontradas(fs, rows);
    if ks == {} then rows else MarcarEncontradas(rows, ks)
  }

  /** Exactly the pending rows with a file on disk become downloaded; no other row and no other column moves. */
  lemma VerificacaoAposExata(rows: Rows, fs: FileSystem, k: string)
    requires k in rows
    ensures VerificacaoApos(rows, fs)[k].(xmlBaixado := rows[k].xmlBaixado) == rows[k]
    ensures VerificacaoApos(rows, fs)[k].xmlBaixado <==>
              rows[k].xmlBaixado
              || (k != [] && VerificarArquivoNoDisco(fs, k, rows[k].dEmi, rows[k].nNF).Some?)
  {
    if !rows[k].xmlBaixado && k != [] && VerificarArquivoNoDisco(fs, k, rows[k].dEmi, rows[k].nNF).Some? {
      assert k in Encontradas(fs, rows);
    }
  }

  /** `verificar_arquivos_existentes()` with `os` imported; the pool is a sequential pass in some order. */
  method VerificarArquivosExistentes(t: Table, fs: FileSystem)
    modifies t
    ensures t.rows == VerificacaoApos(old(t.rows), fs)
  {
    ghost var alvo := Encontradas(fs, t.rows);
    var rows := set k | k in t.rows && !t.rows[k].xmlBaixado;
    var atualizacoes: seq<string> := [];
    var restantes := rows;
    while restantes != {}
      invariant restantes <= rows
      invariant forall i | 0 <= i < |atualizacoes| :: atualizacoes[i] in alvo
      invariant forall k | k in alvo && k !in restantes :: k in atualizacoes
      decreases |restantes|
    {
      var chave :| chave in restantes;
      var chaveValida := VerificarArquivoNoDisco(fs, chave, t.rows[chave].dEmi, t.rows[chave].nNF);
      if chaveValida.Some? && chaveValida.value != [] {
        atualizacoes := atualizacoes + [chaveValida.value];
      }
      restantes := restantes - {chave};
    }
    if atualizacoes != [] {
      assert atualizacoes[0] in alvo;
      PorChaves(t.rows, atualizacoes, alvo);
      t.rows := map k | k in t.rows :: if k in atualizacoes then t.rows[k].(xmlBaixado := true) else t.rows[k];
    } else {
      assert alvo == {};
    }
  }

  /** The `executemany` over the collected keys marks the same rows as the set of keys found. */
  lemma PorChaves(rows: Rows, ks: seq<string>, alvo: set<string>)
    requires forall i | 0 <= i < |ks| :: ks[i] in alvo
    requires forall k | k in alvo :: k in ks
    ensures (map k | k in rows :: if k in ks then rows[k].(xmlBaixado := true) else rows[k]) == MarcarEncontradas(rows, alvo)
  {
  }
}
