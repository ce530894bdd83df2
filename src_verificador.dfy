/**
 * `src/verificador_xmls.py`: find which pending notes already have a
 * non-empty XML on disk, at the place `gerar_xml_path_otimizado` resolves,
 * and mark those keys as downloaded, in batches.  The thread pool is
 * modelled as a sequential pass in an unspecified order, so the keys found
 * are stated as a set.
 */
module SrcVerificador {
  import opened Wrappers
  import opened Text
  import opened Calendar
  import opened Fs
  import opened Store
  import opened Batches
  import opened SrcUtilsNames
  import opened SrcUtilsResolver

  /** The default `base_dir` of `gerar_xml_path_otimizado`, relative to the working directory. */
  const BaseResultado: Path := ["resultado"]

  /** The default `batch_size` of `atualizar_status_no_banco`. */
  const BatchSizePadrao := 500

  // ---------------------------------------------------------------- one note

  /**
   * `caminho.stat().st_size > 0` for a path that exists: the length of a
   * file, and a directory's own size, which is never 0.
   */
  predicate TemConteudo(fs: FileSystem, p: Path)
  {
    if p in fs.files then Size(fs, p) > 0 else p in fs.dirs
  }

  /** `verificar_arquivo_no_disco((chave, dEmi, num_nfe))`. */
  function VerificarArquivoNoDisco(fs: FileSystem, chave: string, dEmi: Option<string>, num: Option<string>)
    : (r: Option<string>)
    ensures chave == [] || Falsy(dEmi) || Falsy(num) ==> r.None?
    ensures r.Some? ==> r.value == chave && chave != []
  {
    if chave == [] || Falsy(dEmi) || Falsy(num) then None
    else
      match XmlPathOtimizado(fs, chave, dEmi, num, BaseResultado)
      case Raise(_) => None
      case Ok((_, caminho)) => if Exists(fs, caminho) && TemConteudo(fs, caminho) then Some(chave) else None
  }

  /** A key comes back exactly when the record resolves and the optimised path has content. */
  lemma VerificarArquivoResolvivel(fs: FileSystem, chave: string, dEmi: Option<string>, num: Option<string>)
    ensures VerificarArquivoNoDisco(fs, chave, dEmi, num).Some? <==>
              Resolvable(chave, dEmi, num) && TemConteudo(fs, XmlPathOtimizado(fs, chave, dEmi, num, BaseResultado).value.1)
  {
  }

  /**
   * The early return on missing fields decides nothing the resolver would
   * not: it raises ValueError for the same notes, and the handler turns that
   * into the same `None`.
   */
  lemma GuardaRedundante(fs: FileSystem, chave: string, dEmi: Option<string>, num: Option<string>)
    ensures VerificarArquivoNoDisco(fs, chave, dEmi, num).None? <==>
              match XmlPathOtimizado(fs, chave, dEmi, num, BaseResultado)
              case Raise(_) => true
              case Ok((_, caminho)) => !(Exists(fs, caminho) && TemConteudo(fs, caminho))
  {
  }

  // ---------------------------------------------------------------- all pending notes

  /** The result of the check for the row of key `k`. */
  function Verificacao(fs: FileSystem, rows: Rows, k: string): Option<string>
    requires k in rows
  {
    VerificarArquivoNoDisco(fs, k, rows[k].dEmi, rows[k].nNF)
  }

  /** The keys of the rows `WHERE xml_baixado = 0` whose file is on disk and not empty. */
  function Validas(fs: FileSystem, rows: Rows): (s: set<string>)
    ensures forall k | k in s :: k in rows && !rows[k].xmlBaixado && k != []
  {
    set k | k in rows && !rows[k].xmlBaixado && Verificacao(fs, rows, k).Some?
  }

  predicate SemRepeticao(ks: seq<string>)
  {
    forall i, j | 0 <= i < j < |ks| :: ks[i] != ks[j]
  }

  /**
   * `verificar_arquivos_existentes(db)`: every pending row is checked once,
   * in some order; the keys of the rows whose file is present are
   * collected, each once.
   */
  method VerificarArquivosExistentes(fs: FileSystem, t: Table) returns (chavesValidas: seq<string>)
    ensures SemRepeticao(chavesValidas)
    ensures forall i | 0 <= i < |chavesValidas| :: chavesValidas[i] in Validas(fs, t.rows)
    ensures forall k | k in Validas(fs, t.rows) :: k in chavesValidas
  {
    var rows := set k | k in t.rows && !t.rows[k].xmlBaixado;
    ghost var validas := Validas(fs, t.rows);
    chavesValidas := [];
    var restantes := rows;
    while restantes != {}
      invariant restantes <= rows
      invariant SemRepeticao(chavesValidas)
      invariant forall i | 0 <= i < |chavesValidas| :: chavesValidas[i] in validas && chavesValidas[i] !in restantes
      invariant forall k | k in validas && k !in restantes :: k in chavesValidas
      decreases |restantes|
    {
      var row :| row in restantes;
      var chave := VerificarArquivoNoDisco(fs, row, t.rows[row].dEmi, t.rows[row].nNF);
      VerificacaoValida(fs, t.rows, row);
      if chave.Some? && chave.value != [] {
        SemRepeticaoSnoc(chavesValidas, row);
        chavesValidas := chavesValidas + [chave.value];
      }
      restantes := restantes - {row};
    }
  }

  /** A key not yet collected keeps the collection free of repeats. */
  lemma SemRepeticaoSnoc(ks: seq<string>, x: string)
    requires SemRepeticao(ks) && x !in ks
    ensures SemRepeticao(ks + [x])
  {
    var r := ks + [x];
    forall i, j | 0 <= i < j < |r| ensures r[i] != r[j] {
      if j == |ks| {
        assert r[i] == ks[i];
      } else {
        assert r[i] == ks[i] && r[j] == ks[j];
      }
    }
  }

  /** The check of one pending row decides whether its key is among the valid ones. */
  lemma VerificacaoValida(fs: FileSystem, rows: Rows, row: string)
    requires row in rows && !rows[row].xmlBaixado
    ensures Verificacao(fs, rows, row).Some? <==> row in Validas(fs, rows)
    ensures Verificacao(fs, rows, row).Some? ==> Verificacao(fs, rows, row).value == row != []
  {
  }

  // ---------------------------------------------------------------- marking the keys found

  /** `UPDATE notas SET xml_baixado = 1 WHERE cChaveNFe = ?` for each key of `ks`. */
  function MarcarBaixados(rows: Rows, ks: seq<string>): (r: Rows)
    ensures r.Keys == rows.Keys
    ensures forall k | k in rows && k in ks :: r[k] == rows[k].(xmlBaixado := true)
    ensures forall k | k in rows && k !in ks :: r[k] == rows[k]
  {
    map k | k in rows :: if k in ks then rows[k].(xmlBaixado := true) else rows[k]
  }

  /** Marking two runs of keys one after the other is marking their concatenation. */
  lemma MarcarBaixadosConcat(rows: Rows, a: seq<string>, b: seq<string>)
    ensures MarcarBaixados(MarcarBaixados(rows, a), b) == MarcarBaixados(rows, a + b)
  {
    forall k | k in rows ensures k in a + b <==> k in a || k in b { }
  }

  /** A marked row keeps its path and every other column: only the downloaded flag moves. */
  lemma MarcarBaixadosSoFlag(rows: Rows, ks: seq<string>, k: string)
    requires k in rows
    ensures MarcarBaixados(rows, ks)[k].caminhoArquivo == rows[k].caminhoArquivo
    ensures MarcarBaixados(rows, ks)[k].(xmlBaixado := rows[k].xmlBaixado) == rows[k]
    ensures MarcarBaixados(rows, ks)[k].xmlBaixado <==> rows[k].xmlBaixado || k in ks
  {
  }

  /** The table after `atualizar_status_no_banco(chaves, batch_size=batchSize)`. */
  function StatusNoBancoApos(rows: Rows, chaves: seq<string>, batchSize: int): (r: Rows)
    ensures chaves == [] || batchSize <= 0 ==> r == rows
    ensures r.Keys == rows.Keys
  {
    if chaves == [] || batchSize <= 0 then rows else MarcarBaixados(rows, chaves)
  }

  /**
   * `atualizar_status_no_banco(chaves, db, batch_size)`.  A `batch_size` of
   * 0 makes `range` raise ValueError, which the handler logs; a negative one
   * gives no batches.  Each batch of keys is one `executemany`.
   */
  method AtualizarStatusNoBanco(t: Table, chaves: seq<string>, batchSize: int)
    modifies t
    ensures t.rows == StatusNoBancoApos(old(t.rows), chaves, batchSize)
  {
    if chaves == [] {
      return;
    }
    var total := |chaves|;
    if batchSize == 0 {
      return;
    }
    if batchSize < 0 {
      return;
    }
    var rows0 := t.rows;
    var i := 0;
    while i < total
      invariant 0 <= i <= total
      invariant t.rows == MarcarBaixados(rows0, chaves[..i])
      decreases total - i
    {
      var fim := Fim(total, i, batchSize);
      var lote := Lote(chaves, i, batchSize);
      assert chaves[..fim] == chaves[..i] + lote;
      MarcarBaixadosConcat(rows0, chaves[..i], lote);
      t.rows := MarcarBaixados(t.rows, lote);
      i := fim;
    }
    assert chaves[..i] == chaves;
  }

  /**
   * Checking and then marking: every row whose file is present ends up
   * downloaded, every other row is unchanged, and no path is recorded.
   */
  lemma VerificarEMarcar(fs: FileSystem, rows: Rows, chaves: seq<string>, k: string)
    requires forall i | 0 <= i < |chaves| :: chaves[i] in Validas(fs, rows)
    requires forall v | v in Validas(fs, rows) :: v in chaves
    requires k in rows
    ensures var r := StatusNoBancoApos(rows, chaves, BatchSizePadrao);
            r[k].caminhoArquivo == rows[k].caminhoArquivo
            && (r[k].xmlBaixado <==> rows[k].xmlBaixado || k in Validas(fs, rows))
  {
    if k in chaves {
      var i :| 0 <= i < |chaves| && chaves[i] == k;
    }
  }
}
