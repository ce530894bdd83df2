/**
 * The root `baixar_parallel.py`: `listar_nfs` posts page after page of
 * `ListarNF` with `requests` and saves every note with the root
 * `salvar_nota`, stopping only at the last page or at the first exception;
 * `baixar_uma_nota` fetches one XML, writes it and marks its row;
 * `baixar_xmls_em_parallel` does that for every pending row.  The listing
 * turn and the download are written once, over the `salvar_nota` and the
 * `atualizar_status_xml` of the `utils` module the script imports, so that
 * `src/baixar_parallel.py`, the same script over `src/utils.py`, shares
 * them.
 */
module RootBaixarParallel {
  import opened Wrappers
  import opened Text
  import opened Json
  import opened Fs
  import opened Store
  import opened Host
  import opened Omie
  import RootUtils
  import RootExtrator

  /** The files, the table, and the POSTs made. */
  datatype Mundo = Mundo(fs: FileSystem, rows: Rows, posts: seq<Request>)

  function MundoDe(h: Host, t: Table): Mundo
    reads h, t
  {
    Mundo(h.fs, t.rows, h.posts)
  }

  /** The POST of page `pagina` of `ListarNF`, to `URL_LISTAR`. */
  function PedidoPagina(c: Cliente, q: Consulta): int -> Request
  {
    (pagina: int) => Requisicao(c, "ListarNF", ParamsListar(q, pagina))
  }

  // ---------------------------------------------------------------- listar_nfs

  /**
   * One turn of `listar_nfs`'s `while True` on page `pagina`: the POST,
   * `raise_for_status()` and `json()`, `data.get('nfCadastro', [])`,
   * `salvar_nota` for each note in order, then the last-page stop.  An
   * exception anywhere ends the listing; an empty page does not.
   */
  function PaginaP(respond: (Request, nat) -> Reply, c: Cliente, q: Consulta, salvar: (Rows, Obj) -> Outcome<Rows>,
                   s: Mundo, pagina: int): (st: Passo<Mundo>)
    ensures st.estado.fs == s.fs
    ensures st.estado.posts == s.posts + [PedidoPagina(c, q)(pagina)]
    ensures st.Para? ==> st.motivo != PaginaVazia
    ensures var res := CorpoRequests(respond(PedidoPagina(c, q)(pagina), |s.posts|));
            (res.Ok? && res.value.JObj? && Itens(RootExtrator.NotasDe(res.value.fields)).Ok? ==>
               st.estado.rows == SalvarNotas(salvar, s.rows, Itens(RootExtrator.NotasDe(res.value.fields)).value).rows)
            && (!(res.Ok? && res.value.JObj? && Itens(RootExtrator.NotasDe(res.value.fields)).Ok?) ==> st.estado.rows == s.rows)
            && (st.Avanca? <==>
                  res.Ok? && res.value.JObj? && Itens(RootExtrator.NotasDe(res.value.fields)).Ok?
                  && SalvarNotas(salvar, s.rows, Itens(RootExtrator.NotasDe(res.value.fields)).value).erro.None?
                  && TotalPaginas(res.value.fields).Ok? && pagina < TotalPaginas(res.value.fields).value)
  {
    var req := Requisicao(c, "ListarNF", ParamsListar(q, pagina));
    var s1 := s.(posts := s.posts + [req]);
    match CorpoRequests(respond(req, |s.posts|))
    case Raise(e) => Para(s1, Falha(e))
    case Ok(body) =>
      match ComoDict(body)
      case Raise(e) => Para(s1, Falha(e))
      case Ok(data) =>
        match Itens(RootExtrator.NotasDe(data))
        case Raise(e) => Para(s1, Falha(e))
        case Ok(nfs) =>
          var g := SalvarNotas(salvar, s.rows, nfs);
          var s2 := s1.(rows := g.rows);
          if g.erro.Some? then Para(s2, Falha(g.erro.value))
          else
            match TotalPaginas(data)
            case Raise(e) => Para(s2, Falha(e))
            case Ok(total) => if pagina >= total then Para(s2, UltimaPagina) else Avanca(s2)
  }

  function PassoP(respond: (Request, nat) -> Reply, c: Cliente, q: Consulta, salvar: (Rows, Obj) -> Outcome<Rows>)
    : (Mundo, int) -> Passo<Mundo>
  {
    (s: Mundo, pagina: int) => PaginaP(respond, c, q, salvar, s, pagina)
  }

  /** The listing stops at the last page or at an exception, never at an empty page. */
  lemma ListarNuncaParaVazia(respond: (Request, nat) -> Reply, c: Cliente, q: Consulta, salvar: (Rows, Obj) -> Outcome<Rows>,
                             s: Mundo, limite: nat)
    ensures var l := Paginar(PassoP(respond, c, q, salvar), s, 1, limite);
            l.motivo.Some? ==> l.motivo.value == UltimaPagina || l.motivo.value.Falha?
  {
    var passo := PassoP(respond, c, q, salvar);
    forall x: Mundo, p: int | passo(x, p).Para? ensures passo(x, p).motivo != PaginaVazia {
      assert passo(x, p) == PaginaP(respond, c, q, salvar, x, p);
    }
    PaginarNuncaPara(passo, PaginaVazia, s, 1, limite);
  }

  /** A page with no notes that is not the last goes on to the next page, with nothing saved. */
  lemma PaginaVaziaSegue(respond: (Request, nat) -> Reply, c: Cliente, q: Consulta, salvar: (Rows, Obj) -> Outcome<Rows>,
                         s: Mundo, pagina: int)
    requires var res := CorpoRequests(respond(PedidoPagina(c, q)(pagina), |s.posts|));
             res.Ok? && res.value.JObj? && "nfCadastro" !in res.value.fields
             && TotalPaginas(res.value.fields).Ok? && pagina < TotalPaginas(res.value.fields).value
    ensures PaginaP(respond, c, q, salvar, s, pagina) == Avanca(s.(posts := s.posts + [PedidoPagina(c, q)(pagina)]))
  {
  }

  /** The listing POSTs exactly one request per page, for pages 1, 2, ... in order. */
  lemma ListarPedidos(respond: (Request, nat) -> Reply, c: Cliente, q: Consulta, salvar: (Rows, Obj) -> Outcome<Rows>,
                      s: Mundo, limite: nat)
    ensures var l := Paginar(PassoP(respond, c, q, salvar), s, 1, limite);
            l.estado.posts == s.posts + Registros(PedidoPagina(c, q), 1, |l.paginas|)
  {
    var passo := PassoP(respond, c, q, salvar);
    var log := (x: Mundo) => x.posts;
    forall x: Mundo, p: int ensures log(passo(x, p).estado) == log(x) + [PedidoPagina(c, q)(p)] {
      assert passo(x, p) == PaginaP(respond, c, q, salvar, x, p);
    }
    PaginarRegistra(passo, log, PedidoPagina(c, q), s, 1, limite);
  }

  /** With a `salvar_nota` that never alters a stored row, neither does the listing, and it never touches the files. */
  lemma ListarEstende(respond: (Request, nat) -> Reply, c: Cliente, q: Consulta, salvar: (Rows, Obj) -> Outcome<Rows>,
                      s: Mundo, limite: nat)
    requires forall r: Rows, o: Obj :: salvar(r, o).Ok? ==> Estende(r, salvar(r, o).value)
    ensures var l := Paginar(PassoP(respond, c, q, salvar), s, 1, limite);
            Estende(s.rows, l.estado.rows) && l.estado.fs == s.fs
  {
    var passo := PassoP(respond, c, q, salvar);
    var inv := (x: Mundo) => Estende(s.rows, x.rows) && x.fs == s.fs;
    forall x: Mundo, p: int | inv(x) ensures inv(passo(x, p).estado) {
      var st := PaginaP(respond, c, q, salvar, x, p);
      assert passo(x, p) == st;
      var res := CorpoRequests(respond(PedidoPagina(c, q)(p), |x.posts|));
      if res.Ok? && res.value.JObj? && Itens(RootExtrator.NotasDe(res.value.fields)).Ok? {
        SalvarNotasEstende(salvar, x.rows, Itens(RootExtrator.NotasDe(res.value.fields)).value);
      }
      EstendeTransitiva(s.rows, x.rows, st.estado.rows);
    }
    PaginarPreserva(passo, inv, s, 1, limite);
  }

  /**
   * A note missing a section ends the listing on its page, in the middle of
   * the loop: the notes before it stay saved, and it and the notes after it
   * are not saved.
   */
  lemma PaginaNotaQuebrada(respond: (Request, nat) -> Reply, c: Cliente, q: Consulta, salvar: (Rows, Obj) -> Outcome<Rows>,
                           s: Mundo, pagina: int, antes: seq<Json>, nf: Json, depois: seq<Json>)
    requires var res := CorpoRequests(respond(PedidoPagina(c, q)(pagina), |s.posts|));
             res.Ok? && res.value.JObj? && Itens(RootExtrator.NotasDe(res.value.fields)) == Ok(antes + [nf] + depois)
    requires SalvarNotas(salvar, s.rows, antes).erro.None? && RegistroDaNota(nf).Raise?
    ensures PaginaP(respond, c, q, salvar, s, pagina)
            == Para(Mundo(s.fs, SalvarNotas(salvar, s.rows, antes).rows, s.posts + [PedidoPagina(c, q)(pagina)]),
                    Falha(RegistroDaNota(nf).exc))
  {
    SalvarNotasParaNaFalha(salvar, s.rows, antes, nf, depois);
    assert (antes + [nf] + depois)[|antes|] == nf;
  }

  /**
   * `listar_nfs()`, for at most `limite` pages: the table and the POSTs end
   * as the page loop says, with the root `salvar_nota`; the files, the
   * sleeps and the client calls are not touched.
   */
  method ListarNfs(h: Host, t: Table, c: Cliente, q: Consulta, limite: nat)
    modifies h, t
    ensures MundoDe(h, t) == Paginar(PassoP(h.respond, c, q, RootExtrator.Salvar()), old(MundoDe(h, t)), 1, limite).estado
    ensures h.sleeps == old(h.sleeps) && h.clientCalls == old(h.clientCalls)
  {
    Paginas(h, t, c, q, limite, PassoP(h.respond, c, q, RootExtrator.Salvar()));
  }

  /** The `while True` over the turns `passo` describes, from page 1. */
  method Paginas(h: Host, t: Table, c: Cliente, q: Consulta, limite: nat, ghost passo: (Mundo, int) -> Passo<Mundo>)
    modifies h, t
    requires forall s: Mundo, p: int {:trigger PaginaP(h.respond, c, q, RootExtrator.Salvar(), s, p)} ::
               passo(s, p) == PaginaP(h.respond, c, q, RootExtrator.Salvar(), s, p)
    ensures MundoDe(h, t) == Paginar(passo, old(MundoDe(h, t)), 1, limite).estado
    ensures h.sleeps == old(h.sleeps) && h.clientCalls == old(h.clientCalls)
  {
    ghost var final := Paginar(passo, MundoDe(h, t), 1, limite).estado;
    var pagina := 1;
    while pagina <= limite
      invariant 1 <= pagina <= limite + 1
      invariant Paginar(passo, MundoDe(h, t), pagina, limite + 1 - pagina).estado == final
      invariant h.sleeps == old(h.sleeps) && h.clientCalls == old(h.clientCalls)
      decreases limite + 1 - pagina
    {
      var parar := ListarPagina(h, t, c, q, pagina, passo);
      if parar {
        return;
      }
      pagina := pagina + 1;
    }
  }

  /** The body of the loop for one page: true where `listar_nfs` breaks. */
  method ListarPagina(h: Host, t: Table, c: Cliente, q: Consulta, pagina: int, ghost passo: (Mundo, int) -> Passo<Mundo>)
    returns (parar: bool)
    modifies h, t
    requires forall s: Mundo, p: int {:trigger PaginaP(h.respond, c, q, RootExtrator.Salvar(), s, p)} ::
               passo(s, p) == PaginaP(h.respond, c, q, RootExtrator.Salvar(), s, p)
    ensures var st := passo(old(MundoDe(h, t)), pagina);
            MundoDe(h, t) == st.estado && (parar <==> st.Para?)
    ensures h.sleeps == old(h.sleeps) && h.clientCalls == old(h.clientCalls)
  {
    ghost var st := PaginaP(h.respond, c, q, RootExtrator.Salvar(), MundoDe(h, t), pagina);
    var response := h.Post(Requisicao(c, "ListarNF", ParamsListar(q, pagina)));
    var body := CorpoRequests(response);
    if body.Raise? {
      return true;
    }
    var data := ComoDict(body.value);
    if data.Raise? {
      return true;
    }
    var nfs := Itens(RootExtrator.NotasDe(data.value));
    if nfs.Raise? {
      return true;
    }
    var erro := RootExtrator.SalvarNotasDaPagina(t, nfs.value);
    if erro.Some? {
      return true;
    }
    var total := TotalPaginas(data.value);
    if total.Raise? {
      return true;
    }
    if pagina >= total.value {
      return true;
    }
    return false;
  }

  // ---------------------------------------------------------------- baixar_uma_nota

  /** The folder the script writes under. */
  const Resultado: Path := ["resultado"]

  /**
   * How a script's `atualizar_status_xml` changes the table, given the files
   * after the write, the key, the path, the XML text and `rebaixado`.
   */
  type Marcar = (Rows, FileSystem, string, Path, string, bool) -> Rows

  /** The root `atualizar_status_xml(DB_NAME, chave, caminho, xml_str, rebaixado)`. */
  function MarcarRaiz(): Marcar
  {
    (rows: Rows, fs: FileSystem, chave: string, caminho: Path, xmlStr: string, rebaixado: bool) =>
      RootUtils.StatusXmlApos(rows, chave, caminho, xmlStr, rebaixado)
  }

  /** The POST of `ObterNfe` for a note, to `URL_XML`. */
  function PedidoXml(c: Cliente, p: NotaPendente): Request
  {
    Requisicao(c, "ObterNfe", ParamsObter(p.nIdNF))
  }

  /** `data['cXmlNfe']` as the text `html.unescape` and `write_text` accept. */
  function XmlDe(body: Json): Outcome<string>
  {
    match Indexar(body, "cXmlNfe")
    case Raise(e) => Raise(e)
    case Ok(v) => TextoXml(v)
  }

  /**
   * `baixar_uma_nota(registro)` on the world `m`: the `dd/mm/yyyy` path
   * under `resultado`, its folder, whether the file was there, the POST of
   * `ObterNfe`, `raise_for_status()` and `json()`, the write of the
   * unescaped `cXmlNfe`, then the row's status; the key on success.  The
   * body catches every exception and returns None.
   */
  function BaixarUma(respond: (Request, nat) -> Reply, c: Cliente, unescape: string -> string, marcar: Marcar,
                     m: Mundo, p: NotaPendente): (r: (Mundo, Option<string>))
  {
    match RootUtils.GerarXmlPath(p.chave, p.dEmi, p.nNF, Resultado)
    case Raise(_) => (m, None)
    case Ok(lugar) =>
      if MkdirFalha(m.fs, lugar.0) then (m, None)
      else
        var fs1 := Fs.Mkdir(m.fs, lugar.0);
        var rebaixado := Exists(fs1, lugar.1);
        var posts := m.posts + [PedidoXml(c, p)];
        match CorpoRequests(respond(PedidoXml(c, p), |m.posts|))
        case Raise(_) => (Mundo(fs1, m.rows, posts), None)
        case Ok(data) =>
          match XmlDe(data)
          case Raise(_) => (Mundo(fs1, m.rows, posts), None)
          case Ok(texto) =>
            var xmlStr := unescape(texto);
            if WriteFalha(fs1, lugar.1) then (Mundo(fs1, m.rows, posts), None)
            else
              var fs2 := WriteFile(fs1, lugar.1, Utf8(xmlStr));
              (Mundo(fs2, marcar(m.rows, fs2, p.chave, lugar.1, xmlStr, rebaixado), posts), Some(p.chave))
  }

  /**
   * Whether the download of `p` writes its file: the date parses, the
   * folder can be made, the POST succeeds, `cXmlNfe` is text and
   * `write_text` does not raise.
   */
  predicate Escreve(respond: (Request, nat) -> Reply, c: Cliente, m: Mundo, p: NotaPendente)
  {
    var lugar := RootUtils.GerarXmlPath(p.chave, p.dEmi, p.nNF, Resultado);
    lugar.Ok? && !MkdirFalha(m.fs, lugar.value.0)
    && var res := CorpoRequests(respond(PedidoXml(c, p), |m.posts|));
       res.Ok? && XmlDe(res.value).Ok?
       && !WriteFalha(Fs.Mkdir(m.fs, lugar.value.0), lugar.value.1)
  }

  /** The download that reaches `write_text`, step by step: the folder, the file, then the row. */
  lemma BaixarUmaEscrita(respond: (Request, nat) -> Reply, c: Cliente, unescape: string -> string, marcar: Marcar,
                         m: Mundo, p: NotaPendente)
    requires Escreve(respond, c, m, p)
    ensures var lugar := RootUtils.GerarXmlPath(p.chave, p.dEmi, p.nNF, Resultado).value;
            var xmlStr := unescape(XmlDe(CorpoRequests(respond(PedidoXml(c, p), |m.posts|)).value).value);
            var fs2 := WriteFile(Fs.Mkdir(m.fs, lugar.0), lugar.1, Utf8(xmlStr));
            BaixarUma(respond, c, unescape, marcar, m, p)
            == (Mundo(fs2, marcar(m.rows, fs2, p.chave, lugar.1, xmlStr, Exists(m.fs, lugar.1)), m.posts + [PedidoXml(c, p)]),
                Some(p.chave))
  {
    var lugar := RootUtils.GerarXmlPath(p.chave, p.dEmi, p.nNF, Resultado).value;
    MkdirDeeper(m.fs, lugar.0, lugar.1);
  }

  /**
   * The key comes back exactly when the XML was written, and the table
   * changes only after the write: a download that stops before it leaves
   * the table as it was and returns None.
   */
  lemma BaixarUmaOrdem(respond: (Request, nat) -> Reply, c: Cliente, unescape: string -> string, marcar: Marcar,
                       m: Mundo, p: NotaPendente)
    ensures var r := BaixarUma(respond, c, unescape, marcar, m, p);
            (r.1.Some? <==> Escreve(respond, c, m, p)) && (r.1.Some? ==> r.1.value == p.chave)
    ensures !Escreve(respond, c, m, p) ==> BaixarUma(respond, c, unescape, marcar, m, p).0.rows == m.rows
    ensures Escreve(respond, c, m, p) ==>
              var r := BaixarUma(respond, c, unescape, marcar, m, p).0;
              var caminho := RootUtils.GerarXmlPath(p.chave, p.dEmi, p.nNF, Resultado).value.1;
              var xmlStr := unescape(XmlDe(CorpoRequests(respond(PedidoXml(c, p), |m.posts|)).value).value);
              caminho in r.fs.files && r.fs.files[caminho] == Utf8(xmlStr)
              && r.rows == marcar(m.rows, r.fs, p.chave, caminho, xmlStr, Exists(m.fs, caminho))
  {
    if Escreve(respond, c, m, p) {
      BaixarUmaEscrita(respond, c, unescape, marcar, m, p);
    }
  }

  /** A reply without `cXmlNfe` is a KeyError: no file is written, no row is marked, and the note comes back None. */
  lemma BaixarUmaSemConteudo(respond: (Request, nat) -> Reply, c: Cliente, unescape: string -> string, marcar: Marcar,
                             m: Mundo, p: NotaPendente)
    requires var res := CorpoRequests(respond(PedidoXml(c, p), |m.posts|));
             res.Ok? && res.value.JObj? && "cXmlNfe" !in res.value.fields
    ensures var r := BaixarUma(respond, c, unescape, marcar, m, p);
            r.1 == None && r.0.rows == m.rows && r.0.fs.files == m.fs.files
  {
  }

  /**
   * With the root `atualizar_status_xml`, a written note's row, and only
   * it, is marked at its path, re-downloaded exactly when the file was
   * there before, and empty exactly when the text is blank.
   */
  lemma BaixarUmaMarcaRaiz(respond: (Request, nat) -> Reply, c: Cliente, unescape: string -> string,
                           m: Mundo, p: NotaPendente)
    requires Escreve(respond, c, m, p) && p.chave != [] && p.chave in m.rows
    ensures var r := BaixarUma(respond, c, unescape, MarcarRaiz(), m, p).0;
            var caminho := RootUtils.GerarXmlPath(p.chave, p.dEmi, p.nNF, Resultado).value.1;
            var xmlStr := unescape(XmlDe(CorpoRequests(respond(PedidoXml(c, p), |m.posts|)).value).value);
            r.rows == RootUtils.StatusXmlApos(m.rows, p.chave, caminho, xmlStr, Exists(m.fs, caminho))
            && r.rows[p.chave].xmlBaixado && r.rows[p.chave].caminhoArquivo == Some(PathStr(caminho))
            && r.rows[p.chave].baixadoNovamente == Exists(m.fs, caminho)
            && (r.rows[p.chave].xmlVazio <==> forall i | 0 <= i < |xmlStr| :: IsPyWhitespace(xmlStr[i]))
  {
    BaixarUmaOrdem(respond, c, unescape, MarcarRaiz(), m, p);
    var caminho := RootUtils.GerarXmlPath(p.chave, p.dEmi, p.nNF, Resultado).value.1;
    var xmlStr := unescape(XmlDe(CorpoRequests(respond(PedidoXml(c, p), |m.posts|)).value).value);
    RootUtils.StatusXmlMarca(m.rows, p.chave, caminho, xmlStr, Exists(m.fs, caminho));
  }

  /** `baixar_uma_nota(registro)` with the root `atualizar_status_xml`. */
  method BaixarUmaNota(h: Host, t: Table, c: Cliente, p: NotaPendente) returns (chave: Option<string>)
    modifies h, t
    ensures var r := BaixarUma(h.respond, c, h.unescape, MarcarRaiz(), old(MundoDe(h, t)), p);
            MundoDe(h, t) == r.0 && chave == r.1
    ensures h.sleeps == old(h.sleeps) && h.clientCalls == old(h.clientCalls)
  {
    var lugar := RootUtils.GerarXmlPath(p.chave, p.dEmi, p.nNF, Resultado);
    if lugar.Raise? {
      return None;
    }
    var pasta := lugar.value.0;
    var caminho := lugar.value.1;
    var criada := h.Mkdir(pasta);
    if !criada {
      return None;
    }
    var rebaixado := Exists(h.fs, caminho);
    var response := h.Post(PedidoXml(c, p));
    var data := CorpoRequests(response);
    if data.Raise? {
      return None;
    }
    var texto := XmlDe(data.value);
    if texto.Raise? {
      return None;
    }
    var xmlStr := h.unescape(texto.value);
    var escrito := h.WriteText(caminho, xmlStr);
    if !escrito {
      return None;
    }
    RootUtils.AtualizarStatusXml(t, p.chave, caminho, xmlStr, rebaixado);
    return Some(p.chave);
  }

  // ---------------------------------------------------------------- baixar_xmls_em_parallel

  /** The downloads of the notes of `ordem`, one after the other, each result set aside. */
  function BaixarTodas(respond: (Request, nat) -> Reply, c: Cliente, unescape: string -> string, marcar: Marcar,
                       m: Mundo, ordem: seq<NotaPendente>): Mundo
    decreases |ordem|
  {
    if ordem == [] then m
    else BaixarUma(respond, c, unescape, marcar, BaixarTodas(respond, c, unescape, marcar, m, ordem[..|ordem| - 1]), ordem[|ordem| - 1]).0
  }

  /**
   * With a status update that changes no row but the note's and no key, the
   * rows of notes outside `ordem` are left as they were, and so is the set
   * of keys.
   */
  lemma {:induction false} BaixarTodasPreserva(respond: (Request, nat) -> Reply, c: Cliente, unescape: string -> string,
                                               marcar: Marcar, m: Mundo, ordem: seq<NotaPendente>, k: string)
    requires forall rows: Rows, fs: FileSystem, chave: string, caminho: Path, x: string, b: bool ::
               var r := marcar(rows, fs, chave, caminho, x, b);
               r.Keys == rows.Keys && forall j | j in rows && j != chave :: r[j] == rows[j]
    requires k in m.rows
    requires forall i | 0 <= i < |ordem| :: ordem[i].chave != k
    ensures var r := BaixarTodas(respond, c, unescape, marcar, m, ordem);
            r.rows.Keys == m.rows.Keys && r.rows[k] == m.rows[k]
    decreases |ordem|
  {
    if ordem != [] {
      var antes := ordem[..|ordem| - 1];
      BaixarTodasPreserva(respond, c, unescape, marcar, m, antes, k);
      var m1 := BaixarTodas(respond, c, unescape, marcar, m, antes);
      BaixarUmaOrdem(respond, c, unescape, marcar, m1, ordem[|ordem| - 1]);
    }
  }

  /** The root `atualizar_status_xml` changes no row but the note's, and no key. */
  lemma MarcarRaizSoSuaLinha()
    ensures forall rows: Rows, fs: FileSystem, chave: string, caminho: Path, x: string, b: bool ::
              var r := MarcarRaiz()(rows, fs, chave, caminho, x, b);
              r.Keys == rows.Keys && forall j | j in rows && j != chave :: r[j] == rows[j]
  {
    forall rows: Rows, fs: FileSystem, chave: string, caminho: Path, x: string, b: bool
      ensures var r := MarcarRaiz()(rows, fs, chave, caminho, x, b);
              r.Keys == rows.Keys && forall j | j in rows && j != chave :: r[j] == rows[j]
    {
      assert MarcarRaiz()(rows, fs, chave, caminho, x, b) == RootUtils.StatusXmlApos(rows, chave, caminho, x, b);
    }
  }

  /**
   * `baixar_xmls_em_parallel()`: the rows with `xml_baixado = 0` are read
   * once, then each is downloaded, in some order `ordem` that lists each of
   * them exactly once (the order in which the pool runs them).
   */
  method BaixarXmlsEmParallel(h: Host, t: Table, c: Cliente) returns (ghost ordem: seq<NotaPendente>)
    modifies h, t
    ensures forall p :: p in ordem <==> p in Pendentes(old(t.rows))
    ensures |ordem| == |Pendentes(old(t.rows))|
    ensures MundoDe(h, t) == BaixarTodas(h.respond, c, h.unescape, MarcarRaiz(), old(MundoDe(h, t)), ordem)
    ensures h.sleeps == old(h.sleeps) && h.clientCalls == old(h.clientCalls)
  {
    var rows := Pendentes(t.rows);
    ghost var m0 := MundoDe(h, t);
    var restantes := rows;
    ordem := [];
    while restantes != {}
      invariant restantes <= rows
      invariant forall p :: p in ordem <==> p in rows && p !in restantes
      invariant |ordem| + |restantes| == |rows|
      invariant MundoDe(h, t) == BaixarTodas(h.respond, c, h.unescape, MarcarRaiz(), m0, ordem)
      invariant h.sleeps == old(h.sleeps) && h.clientCalls == old(h.clientCalls)
      decreases |restantes|
    {
      var p :| p in restantes;
      var _ := BaixarUmaNota(h, t, c, p);
      assert (ordem + [p])[..|ordem|] == ordem;
      ordem := ordem + [p];
      restantes := restantes - {p};
    }
  }
}
