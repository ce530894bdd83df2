/**
 * `src/baixar_parallel.py`: the root `baixar_parallel.py` run from `src/`,
 * so that its `from utils import ...` is `src/utils.py`.  The listing turn
 * and the download are the root module's; what differs is `salvar_nota`,
 * which raises TypeError on a key it cannot slice and skips an invalid
 * record without stopping, and `atualizar_status_xml`, which is called
 * without `xml_vazio` and so never marks a file as empty.
 */
module SrcBaixarParallel {
  import opened Wrappers
  import opened Json
  import opened Fs
  import opened Store
  import opened Host
  import opened Omie
  import opened RootBaixarParallel
  import RootUtils
  import SrcUtilsRecords
  import SrcUtilsStatus

  /** `src/utils.py`'s `salvar_nota(registro, DB_NAME)` as a step of a page's loop: its result is set aside. */
  function Salvar(): (Rows, Obj) -> Outcome<Rows>
  {
    (rows: Rows, registro: Obj) =>
      match SrcUtilsRecords.SalvarNotaResultado(rows, registro)
      case Raise(e) => Raise(e)
      case Ok(_) => Ok(SrcUtilsRecords.SalvarNotaLinhas(rows, registro))
  }

  /** `atualizar_status_xml(DB_NAME, chave, caminho, xml_str, rebaixado)`, with `xml_vazio` left at 0. */
  function MarcarSrc(): Marcar
  {
    (rows: Rows, fs: FileSystem, chave: string, caminho: Path, xmlStr: string, rebaixado: bool) =>
      SrcUtilsStatus.StatusXmlApos(rows, fs, chave, caminho, false)
  }

  // ---------------------------------------------------------------- listar_nfs

  /** No save through `src/utils.py`'s `salvar_nota` alters a stored row. */
  lemma SalvarEstende()
    ensures forall r: Rows, o: Obj :: Salvar()(r, o).Ok? ==> Estende(r, Salvar()(r, o).value)
  {
    forall r: Rows, o: Obj | Salvar()(r, o).Ok? ensures Estende(r, Salvar()(r, o).value) {
      assert Salvar()(r, o) == Ok(SrcUtilsRecords.SalvarNotaLinhas(r, o));
    }
  }

  /**
   * A note read from a page is saved unless its key is missing or not text:
   * `salvar_nota` then raises TypeError on `chave[:8]`, which ends the
   * listing; an invalid record with a text key is skipped and the loop goes on.
   */
  lemma SalvarNotaDaPagina(rows: Rows, nf: Json)
    requires RegistroDaNota(nf).Ok?
    ensures var reg := RegistroDaNota(nf).value;
            var k := Get(nf.fields["compl"].fields, "cChaveNFe");
            (Salvar()(rows, reg).Raise? <==> !(k.JStr? || k.JList?))
            && (Salvar()(rows, reg).Raise? ==> Salvar()(rows, reg).exc == TypeError)
            && (Salvar()(rows, reg).Ok? ==> Salvar()(rows, reg).value == SrcUtilsRecords.SalvarNotaLinhas(rows, reg))
  {
    RegistroDaNotaCampos(nf);
    var reg := RegistroDaNota(nf).value;
    assert GetOr(reg, "cChaveNFe", JStr("UNKNOWN")) == Get(nf.fields["compl"].fields, "cChaveNFe");
  }

  /** The listing with `src/utils.py`'s `salvar_nota` never alters a stored row, and never stops at an empty page. */
  lemma ListarSrc(respond: (Request, nat) -> Reply, c: Cliente, q: Consulta, s: Mundo, limite: nat)
    ensures var l := Paginar(PassoP(respond, c, q, Salvar()), s, 1, limite);
            Estende(s.rows, l.estado.rows) && l.estado.fs == s.fs
            && (l.motivo.Some? ==> l.motivo.value == UltimaPagina || l.motivo.value.Falha?)
  {
    SalvarEstende();
    RootBaixarParallel.ListarEstende(respond, c, q, Salvar(), s, limite);
    ListarNuncaParaVazia(respond, c, q, Salvar(), s, limite);
  }

  /**
   * `listar_nfs()`, for at most `limite` pages: the table and the POSTs end
   * as the page loop says, with `src/utils.py`'s `salvar_nota`; the files,
   * the sleeps and the client calls are not touched.
   */
  method ListarNfs(h: Host, t: Table, c: Cliente, q: Consulta, limite: nat)
    modifies h, t
    ensures MundoDe(h, t) == Paginar(PassoP(h.respond, c, q, Salvar()), old(MundoDe(h, t)), 1, limite).estado
    ensures h.sleeps == old(h.sleeps) && h.clientCalls == old(h.clientCalls)
  {
    Paginas(h, t, c, q, limite, PassoP(h.respond, c, q, Salvar()));
  }

  /** The `while True` over the turns `passo` describes, from page 1. */
  method Paginas(h: Host, t: Table, c: Cliente, q: Consulta, limite: nat, ghost passo: (Mundo, int) -> Passo<Mundo>)
    modifies h, t
    requires forall s: Mundo, p: int {:trigger PaginaP(h.respond, c, q, Salvar(), s, p)} ::
               passo(s, p) == PaginaP(h.respond, c, q, Salvar(), s, p)
    ensures MundoDe(h, t) == Paginar(passo, old(MundoDe(h, t)), 1, limite).estado
    ensures h.sleeps == old(h.sleeps) && h.clientCalls == old(h.clientCalls)
  {
    ghost var final := Paginar(passo, MundoDe(h, t), 1, limite).estado;
    var pagina := 1;
    while pagina <= limite
      invariant 1 <= pagina <= limite + 1
      invariant Paginar(passo, MundoDe(h, t), pagina, limite + 1 - pagina).estado == final
      invariant h.sleeps == old(h.sleeps) && h.clientCalls == old(h.clientCalls)
      decreases limite + 1 - pagina
    {
      var parar := ListarPagina(h, t, c, q, pagina, passo);
      if parar {
        return;
      }
      pagina := pagina + 1;
    }
  }

  /** The body of the loop for one page: true where `listar_nfs` breaks. */
  method ListarPagina(h: Host, t: Table, c: Cliente, q: Consulta, pagina: int, ghost passo: (Mundo, int) -> Passo<Mundo>)
    returns (parar: bool)
    modifies h, t
    requires forall s: Mundo, p: int {:trigger PaginaP(h.respond, c, q, Salvar(), s, p)} ::
               passo(s, p) == PaginaP(h.respond, c, q, Salvar(), s, p)
    ensures var st := passo(old(MundoDe(h, t)), pagina);
            MundoDe(h, t) == st.estado && (parar <==> st.Para?)
    ensures h.sleeps == old(h.sleeps) && h.clientCalls == old(h.clientCalls)
  {
    ghost var st := PaginaP(h.respond, c, q, Salvar(), MundoDe(h, t), pagina);
    var response := h.Post(Requisicao(c, "ListarNF", ParamsListar(q, pagina)));
    var body := CorpoRequests(response);
    if body.Raise? {
      return true;
    }
    var data := ComoDict(body.value);
    if data.Raise? {
      return true;
    }
    var nfs := Itens(GetOr(data.value, "nfCadastro", JList([])));
    if nfs.Raise? {
      return true;
    }
    var erro := SalvarNotasDaPagina(t, nfs.value);
    if erro.Some? {
      return true;
    }
    var total := TotalPaginas(data.value);
    if total.Raise? {
      return true;
    }
    if pagina >= total.value {
      return true;
    }
    return false;
  }

  /**
   * `for nf in notas: salvar_nota({...}, DB_NAME)`: the record of each note,
   * saved in order; the first exception stops the loop and is returned.
   */
  method SalvarNotasDaPagina(t: Table, nfs: seq<Json>) returns (erro: Option<Exc>)
    modifies t
    ensures var g := SalvarNotas(Salvar(), old(t.rows), nfs);
            t.rows == g.rows && erro == g.erro
  {
    erro := SalvarCada(t, nfs, (r: Rows, ns: seq<Json>) => SalvarNotas(Salvar(), r, ns));
  }

  /** The loop of `SalvarNotasDaPagina`, with the loop over notes named `gravar`. */
  method SalvarCada(t: Table, nfs: seq<Json>, ghost gravar: (Rows, seq<Json>) -> Gravacao) returns (erro: Option<Exc>)
    modifies t
    requires Grava(Salvar(), gravar)
    ensures t.rows == gravar(old(t.rows), nfs).rows && erro == gravar(old(t.rows), nfs).erro
  {
    ghost var rows0 := t.rows;
    assert gravar(rows0, []) == SalvarNotas(Salvar(), rows0, []);
    erro := None;
    var i := 0;
    while i < |nfs|
      invariant 0 <= i <= |nfs|
      invariant gravar(rows0, nfs[..i]) == Gravacao(t.rows, None) && erro.None?
      decreases |nfs| - i
    {
      GravarPasso(Salvar(), gravar, rows0, nfs[..i], nfs[i], nfs[i + 1..]);
      assert nfs[..i + 1] == nfs[..i] + [nfs[i]];
      assert nfs == nfs[..i] + [nfs[i]] + nfs[i + 1..];
      ghost var antes := t.rows;
      erro := SalvarUma(t, nfs[i], gravar);
      assert gravar(rows0, nfs[..i + 1]) == gravar(antes, [nfs[i]]);
      if erro.Some? {
        return;
      }
      i := i + 1;
    }
    assert nfs[..i] == nfs;
  }

  /** One turn: the note's record, then `salvar_nota`, whose result is set aside. */
  method SalvarUma(t: Table, nf: Json, ghost gravar: (Rows, seq<Json>) -> Gravacao) returns (erro: Option<Exc>)
    modifies t
    requires Grava(Salvar(), gravar)
    ensures t.rows == gravar(old(t.rows), [nf]).rows && erro == gravar(old(t.rows), [nf]).erro
  {
    assert gravar(t.rows, [nf]) == SalvarNotas(Salvar(), t.rows, [nf]);
    SalvarNotasUma(Salvar(), t.rows, nf);
    var registro := RegistroDaNota(nf);
    if registro.Raise? {
      return Some(registro.exc);
    }
    var r := SrcUtilsRecords.SalvarNota(t, registro.value);
    if r.Raise? {
      return Some(r.exc);
    }
    return None;
  }

  // ---------------------------------------------------------------- baixar_uma_nota

  /**
   * A written note's row, and only it, is marked downloaded at its path,
   * and never as empty, whatever the text: `xml_vazio` keeps its default.
   */
  lemma BaixarUmaMarcaSrc(respond: (Request, nat) -> Reply, c: Cliente, unescape: string -> string,
                          m: Mundo, p: NotaPendente)
    requires Escreve(respond, c, m, p) && p.chave != [] && p.chave in m.rows
    ensures var r := BaixarUma(respond, c, unescape, MarcarSrc(), m, p);
            var caminho := RootUtils.GerarXmlPath(p.chave, p.dEmi, p.nNF, Resultado).value.1;
            r.1 == Some(p.chave)
            && r.0.rows.Keys == m.rows.Keys && (forall k | k in m.rows && k != p.chave :: r.0.rows[k] == m.rows[k])
            && (PathStr(caminho) != [] ==>
                  r.0.rows[p.chave].xmlBaixado && r.0.rows[p.chave].caminhoArquivo == Some(PathStr(caminho))
                  && !r.0.rows[p.chave].xmlVazio)
  {
    BaixarUmaOrdem(respond, c, unescape, MarcarSrc(), m, p);
    var r := BaixarUma(respond, c, unescape, MarcarSrc(), m, p).0;
    var caminho := RootUtils.GerarXmlPath(p.chave, p.dEmi, p.nNF, Resultado).value.1;
    assert Exists(r.fs, caminho);
  }

  /** `src/utils.py`'s `atualizar_status_xml` changes no row but the note's, and no key. */
  lemma MarcarSrcSoSuaLinha()
    ensures forall rows: Rows, fs: FileSystem, chave: string, caminho: Path, x: string, b: bool ::
              var r := MarcarSrc()(rows, fs, chave, caminho, x, b);
              r.Keys == rows.Keys && forall j | j in rows && j != chave :: r[j] == rows[j]
  {
    forall rows: Rows, fs: FileSystem, chave: string, caminho: Path, x: string, b: bool
      ensures var r := MarcarSrc()(rows, fs, chave, caminho, x, b);
              r.Keys == rows.Keys && forall j | j in rows && j != chave :: r[j] == rows[j]
    {
      assert MarcarSrc()(rows, fs, chave, caminho, x, b) == SrcUtilsStatus.StatusXmlApos(rows, fs, chave, caminho, false);
    }
  }

  /** `baixar_uma_nota(registro)` with `src/utils.py`'s `atualizar_status_xml`. */
  method BaixarUmaNota(h: Host, t: Table, c: Cliente, p: NotaPendente) returns (chave: Option<string>)
    modifies h, t
    ensures var r := BaixarUma(h.respond, c, h.unescape, MarcarSrc(), old(MundoDe(h, t)), p);
            MundoDe(h, t) == r.0 && chave == r.1
    ensures h.sleeps == old(h.sleeps) && h.clientCalls == old(h.clientCalls)
  {
    var lugar := RootUtils.GerarXmlPath(p.chave, p.dEmi, p.nNF, Resultado);
    if lugar.Raise? {
      return None;
    }
    var pasta := lugar.value.0;
    var caminho := lugar.value.1;
    var criada := h.Mkdir(pasta);
    if !criada {
      return None;
    }
    var rebaixado := Exists(h.fs, caminho);
    var response := h.Post(PedidoXml(c, p));
    var data := CorpoRequests(response);
    if data.Raise? {
      return None;
    }
    var texto := XmlDe(data.value);
    if texto.Raise? {
      return None;
    }
    var xmlStr := h.unescape(texto.value);
    var escrito := h.WriteText(caminho, xmlStr);
    if !escrito {
      return None;
    }
    SrcUtilsStatus.AtualizarStatusXml(t, h.fs, p.chave, caminho, xmlStr, rebaixado, false);
    return Some(p.chave);
  }

  // ---------------------------------------------------------------- baixar_xmls_em_parallel

  /**
   * `baixar_xmls_em_parallel()`: the rows with `xml_baixado = 0` are read
   * once, then each is downloaded, in some order `ordem` that lists each of
   * them exactly once.
   */
  method BaixarXmlsEmParallel(h: Host, t: Table, c: Cliente) returns (ghost ordem: seq<NotaPendente>)
    modifies h, t
    ensures forall p :: p in ordem <==> p in Pendentes(old(t.rows))
    ensures |ordem| == |Pendentes(old(t.rows))|
    ensures MundoDe(h, t) == BaixarTodas(h.respond, c, h.unescape, MarcarSrc(), old(MundoDe(h, t)), ordem)
    ensures h.sleeps == old(h.sleeps) && h.clientCalls == old(h.clientCalls)
  {
    var rows := Pendentes(t.rows);
    ghost var m0 := MundoDe(h, t);
    var restantes := rows;
    ordem := [];
    while restantes != {}
      invariant restantes <= rows
      invariant forall p :: p in ordem <==> p in rows && p !in restantes
      invariant |ordem| + |restantes| == |rows|
      invariant MundoDe(h, t) == BaixarTodas(h.respond, c, h.unescape, MarcarSrc(), m0, ordem)
      invariant h.sleeps == old(h.sleeps) && h.clientCalls == old(h.clientCalls)
      decreases |restantes|
    {
      var p :| p in restantes;
      var _ := BaixarUmaNota(h, t, c, p);
      assert (ordem + [p])[..|ordem|] == ordem;
      ordem := ordem + [p];
      restantes := restantes - {p};
    }
  }
}
