/**
 * The root `extrator_async.py`: `listar_nfs` walks the pages of `ListarNF`
 * through the client it is given and saves every note with the root
 * `salvar_nota`; `baixar_xml_individual` fetches one XML, writes it and
 * marks its row with the root `atualizar_status_xml`; `baixar_xmls` does
 * that for every pending row.  The client is a parameter: its `call_api`
 * is the host's client call, whatever it does inside.
 */
module RootExtrator {
  import opened Wrappers
  import opened Text
  import opened Json
  import opened Fs
  import opened Store
  import opened Host
  import opened Omie
  import RootUtils
  import RootOmieClient

  /** The files, the table, and the calls made to the client. */
  datatype Mundo = Mundo(fs: FileSystem, rows: Rows, chamadas: seq<(string, Json)>)

  function MundoDe(h: Host, t: Table): Mundo
    reads h, t
  {
    Mundo(h.fs, t.rows, h.clientCalls)
  }

  /** The root `salvar_nota` as a step of a page's loop. */
  function Salvar(): (Rows, Obj) -> Outcome<Rows>
  {
    (rows: Rows, registro: Obj) => RootUtils.SalvarNotaApos(rows, registro)
  }

  /** No save through the root `salvar_nota` alters a stored row. */
  lemma SalvarEstende()
    ensures forall r: Rows, o: Obj :: Salvar()(r, o).Ok? ==> Estende(r, Salvar()(r, o).value)
  {
    forall r: Rows, o: Obj | Salvar()(r, o).Ok? ensures Estende(r, Salvar()(r, o).value) {
      assert Salvar()(r, o) == RootUtils.SalvarNotaApos(r, o);
    }
  }

  // ---------------------------------------------------------------- listar_nfs

  /** The notes of a reply: `data.get('nfCadastro', [])`. */
  function NotasDe(data: Obj): Json
  {
    GetOr(data, "nfCadastro", JList([]))
  }

  /**
   * One turn of `listar_nfs`'s `while True` on page `pagina`: the call, the
   * empty-page stop, `salvar_nota` for each note in order, then the
   * last-page stop; an exception anywhere ends the listing.
   */
  function PaginaR(reply: (string, Json, nat) -> Outcome<Obj>, q: Consulta, s: Mundo, pagina: int): (st: Passo<Mundo>)
    ensures st.estado.fs == s.fs
    ensures st.estado.chamadas == s.chamadas + [("ListarNF", ParamsListar(q, pagina))]
    ensures var res := reply("ListarNF", ParamsListar(q, pagina), |s.chamadas|);
            (st.Para? && st.motivo == PaginaVazia <==> res.Ok? && !Truthy(NotasDe(res.value)))
            && (res.Ok? && Truthy(NotasDe(res.value)) && Itens(NotasDe(res.value)).Ok? ==>
                  st.estado.rows == SalvarNotas(Salvar(), s.rows, Itens(NotasDe(res.value)).value).rows)
            && (st.Avanca? <==>
                  res.Ok? && Truthy(NotasDe(res.value)) && Itens(NotasDe(res.value)).Ok?
                  && SalvarNotas(Salvar(), s.rows, Itens(NotasDe(res.value)).value).erro.None?
                  && TotalPaginas(res.value).Ok? && pagina < TotalPaginas(res.value).value)
  {
    var params := ParamsListar(q, pagina);
    var s1 := s.(chamadas := s.chamadas + [("ListarNF", params)]);
    match reply("ListarNF", params, |s.chamadas|)
    case Raise(e) => Para(s1, Falha(e))
    case Ok(data) =>
      var notas := NotasDe(data);
      if !Truthy(notas) then Para(s1, PaginaVazia)
      else
        match Itens(notas)
        case Raise(e) => Para(s1, Falha(e))
        case Ok(nfs) =>
          var g := SalvarNotas(Salvar(), s.rows, nfs);
          var s2 := s1.(rows := g.rows);
          if g.erro.Some? then Para(s2, Falha(g.erro.value))
          else
            match TotalPaginas(data)
            case Raise(e) => Para(s2, Falha(e))
            case Ok(total) => if pagina >= total then Para(s2, UltimaPagina) else Avanca(s2)
  }

  function PassoR(reply: (string, Json, nat) -> Outcome<Obj>, q: Consulta): (Mundo, int) -> Passo<Mundo>
  {
    (s: Mundo, pagina: int) => PaginaR(reply, q, s, pagina)
  }

  /** A page never alters a stored row. */
  lemma PaginaREstende(reply: (string, Json, nat) -> Outcome<Obj>, q: Consulta, s: Mundo, pagina: int)
    ensures Estende(s.rows, PaginaR(reply, q, s, pagina).estado.rows)
  {
    var res := reply("ListarNF", ParamsListar(q, pagina), |s.chamadas|);
    if res.Ok? && Truthy(NotasDe(res.value)) && Itens(NotasDe(res.value)).Ok? {
      SalvarEstende();
      SalvarNotasEstende(Salvar(), s.rows, Itens(NotasDe(res.value)).value);
    }
  }

  /** The listing never alters a stored row and never touches the files. */
  lemma ListarEstende(reply: (string, Json, nat) -> Outcome<Obj>, q: Consulta, s: Mundo, limite: nat)
    ensures var l := Paginar(PassoR(reply, q), s, 1, limite);
            Estende(s.rows, l.estado.rows) && l.estado.fs == s.fs
  {
    var inv := (x: Mundo) => Estende(s.rows, x.rows) && x.fs == s.fs;
    forall x: Mundo, p: int | inv(x) ensures inv(PassoR(reply, q)(x, p).estado) {
      PaginaREstende(reply, q, x, p);
      EstendeTransitiva(s.rows, x.rows, PaginaR(reply, q, x, p).estado.rows);
    }
    PaginarPreserva(PassoR(reply, q), inv, s, 1, limite);
  }

  /** An empty first page ends the listing there, with nothing saved. */
  lemma ListarPrimeiraVazia(reply: (string, Json, nat) -> Outcome<Obj>, q: Consulta, s: Mundo, limite: nat)
    requires limite >= 1
    requires var res := reply("ListarNF", ParamsListar(q, 1), |s.chamadas|);
             res.Ok? && !Truthy(NotasDe(res.value))
    ensures var l := Paginar(PassoR(reply, q), s, 1, limite);
            l.paginas == [1] && l.motivo == Some(PaginaVazia) && l.estado.rows == s.rows
  {
  }

  /**
   * A note that cannot be read ends the listing on its page: the notes
   * before it are saved, and it and the notes after it are not.
   */
  lemma PaginaNotaQuebrada(reply: (string, Json, nat) -> Outcome<Obj>, q: Consulta, s: Mundo, pagina: int,
                           antes: seq<Json>, nf: Json, depois: seq<Json>)
    requires var res := reply("ListarNF", ParamsListar(q, pagina), |s.chamadas|);
             res.Ok? && Itens(NotasDe(res.value)) == Ok(antes + [nf] + depois)
    requires SalvarNotas(Salvar(), s.rows, antes).erro.None? && RegistroDaNota(nf).Raise?
    ensures PaginaR(reply, q, s, pagina)
            == Para(Mundo(s.fs, SalvarNotas(Salvar(), s.rows, antes).rows, s.chamadas + [("ListarNF", ParamsListar(q, pagina))]),
                    Falha(RegistroDaNota(nf).exc))
  {
    SalvarNotasParaNaFalha(Salvar(), s.rows, antes, nf, depois);
    assert (antes + [nf] + depois)[|antes|] == nf;
  }

  /**
   * `listar_nfs(client, config, db_name)`, for at most `limite` pages: the
   * table and the client calls end as the page loop says, and the files
   * are not touched.
   */
  method ListarNfs(h: Host, t: Table, q: Consulta, limite: nat)
    modifies h, t
    ensures MundoDe(h, t) == Paginar(PassoR(h.clientReply, q), old(MundoDe(h, t)), 1, limite).estado
    ensures h.posts == old(h.posts) && h.sleeps == old(h.sleeps)
  {
    Paginas(h, t, q, limite, PassoR(h.clientReply, q));
  }

  /** The `while True` over the turns `passo` describes, from page 1. */
  method Paginas(h: Host, t: Table, q: Consulta, limite: nat, ghost passo: (Mundo, int) -> Passo<Mundo>)
    modifies h, t
    requires forall s: Mundo, p: int {:trigger PaginaR(h.clientReply, q, s, p)} :: passo(s, p) == PaginaR(h.clientReply, q, s, p)
    ensures MundoDe(h, t) == Paginar(passo, old(MundoDe(h, t)), 1, limite).estado
    ensures h.posts == old(h.posts) && h.sleeps == old(h.sleeps)
  {
    ghost var final := Paginar(passo, MundoDe(h, t), 1, limite).estado;
    var pagina := 1;
    while pagina <= limite
      invariant 1 <= pagina <= limite + 1
      invariant Paginar(passo, MundoDe(h, t), pagina, limite + 1 - pagina).estado == final
      invariant h.posts == old(h.posts) && h.sleeps == old(h.sleeps)
      decreases limite + 1 - pagina
    {
      var parar := ListarPagina(h, t, q, pagina, passo);
      if parar {
        return;
      }
      pagina := pagina + 1;
    }
  }

  /** The body of the loop for one page: true where `listar_nfs` breaks. */
  method ListarPagina(h: Host, t: Table, q: Consulta, pagina: int, ghost passo: (Mundo, int) -> Passo<Mundo>)
    returns (parar: bool)
    modifies h, t
    requires forall s: Mundo, p: int {:trigger PaginaR(h.clientReply, q, s, p)} :: passo(s, p) == PaginaR(h.clientReply, q, s, p)
    ensures var st := passo(old(MundoDe(h, t)), pagina);
            MundoDe(h, t) == st.estado && (parar <==> st.Para?)
    ensures h.posts == old(h.posts) && h.sleeps == old(h.sleeps)
  {
    ghost var st := PaginaR(h.clientReply, q, MundoDe(h, t), pagina);
    var payload := ParamsListar(q, pagina);
    var data := h.ClientCall("ListarNF", payload);
    if data.Raise? {
      return true;
    }
    var notas := NotasDe(data.value);
    if !Truthy(notas) {
      return true;
    }
    var nfs := Itens(notas);
    if nfs.Raise? {
      return true;
    }
    var erro := SalvarNotasDaPagina(t, nfs.value);
    if erro.Some? {
      return true;
    }
    var total := TotalPaginas(data.value);
    if total.Raise? {
      return true;
    }
    if pagina >= total.value {
      return true;
    }
    return false;
  }

  /**
   * `for nf in notas: salvar_nota({...}, db_name)`: the record of each note,
   * saved in order; the first failure stops the loop and is returned.
   */
  method SalvarNotasDaPagina(t: Table, nfs: seq<Json>) returns (erro: Option<Exc>)
    modifies t
    ensures var g := SalvarNotas(Salvar(), old(t.rows), nfs);
            t.rows == g.rows && erro == g.erro
  {
    erro := SalvarCada(t, nfs, (r: Rows, ns: seq<Json>) => SalvarNotas(Salvar(), r, ns));
  }

  /** The loop of `SalvarNotasDaPagina`, with the loop over notes named `gravar`. */
  method SalvarCada(t: Table, nfs: seq<Json>, ghost gravar: (Rows, seq<Json>) -> Gravacao) returns (erro: Option<Exc>)
    modifies t
    requires Grava(Salvar(), gravar)
    ensures t.rows == gravar(old(t.rows), nfs).rows && erro == gravar(old(t.rows), nfs).erro
  {
    ghost var rows0 := t.rows;
    assert gravar(rows0, []) == SalvarNotas(Salvar(), rows0, []);
    erro := None;
    var i := 0;
    while i < |nfs|
      invariant 0 <= i <= |nfs|
      invariant gravar(rows0, nfs[..i]) == Gravacao(t.rows, None) && erro.None?
      decreases |nfs| - i
    {
      GravarPasso(Salvar(), gravar, rows0, nfs[..i], nfs[i], nfs[i + 1..]);
      assert nfs[..i + 1] == nfs[..i] + [nfs[i]];
      assert nfs == nfs[..i] + [nfs[i]] + nfs[i + 1..];
      ghost var antes := t.rows;
      erro := SalvarUma(t, nfs[i], gravar);
      assert gravar(rows0, nfs[..i + 1]) == gravar(antes, [nfs[i]]);
      if erro.Some? {
        return;
      }
      i := i + 1;
    }
    assert nfs[..i] == nfs;
  }

  /** One turn: the note's record, then `salvar_nota`. */
  method SalvarUma(t: Table, nf: Json, ghost gravar: (Rows, seq<Json>) -> Gravacao) returns (erro: Option<Exc>)
    modifies t
    requires Grava(Salvar(), gravar)
    ensures t.rows == gravar(old(t.rows), [nf]).rows && erro == gravar(old(t.rows), [nf]).erro
  {
    assert gravar(t.rows, [nf]) == SalvarNotas(Salvar(), t.rows, [nf]);
    SalvarNotasUma(Salvar(), t.rows, nf);
    var registro := RegistroDaNota(nf);
    if registro.Raise? {
      return Some(registro.exc);
    }
    var r := RootUtils.SalvarNota(t, registro.value);
    if r.Raise? {
      return Some(r.exc);
    }
    return None;
  }

  // ---------------------------------------------------------------- baixar_xml_individual

  /** `gerar_xml_path`'s default `base_dir`. */
  const Resultado: Path := ["resultado"]

  /**
   * `baixar_xml_individual(session, client, row, semaphore, db_name)` on the
   * world `m`: the path, its folder, whether the file was already there,
   * the `ObterNfe` call, the write of the unescaped `cXmlNfe` (an empty file
   * when it is absent), then the row's status.  The body catches every
   * exception, so a failure at any step ends the download there.
   */
  function BaixarXml(reply: (string, Json, nat) -> Outcome<Obj>, unescape: string -> string,
                     m: Mundo, p: NotaPendente): (r: Mundo)
  {
    match RootUtils.GerarXmlPath(p.chave, p.dEmi, p.nNF, Resultado)
    case Raise(_) => m
    case Ok(lugar) =>
      if MkdirFalha(m.fs, lugar.0) then m
      else
        var fs1 := Fs.Mkdir(m.fs, lugar.0);
        var rebaixado := Exists(fs1, lugar.1);
        var chamadas := m.chamadas + [("ObterNfe", ParamsObter(p.nIdNF))];
        match reply("ObterNfe", ParamsObter(p.nIdNF), |m.chamadas|)
        case Raise(_) => Mundo(fs1, m.rows, chamadas)
        case Ok(data) =>
          match TextoXml(GetOr(data, "cXmlNfe", JStr("")))
          case Raise(_) => Mundo(fs1, m.rows, chamadas)
          case Ok(texto) =>
            var xmlStr := unescape(texto);
            if WriteFalha(fs1, lugar.1) then Mundo(fs1, m.rows, chamadas)
            else Mundo(WriteFile(fs1, lugar.1, Utf8(xmlStr)), RootUtils.StatusXmlApos(m.rows, p.chave, lugar.1, xmlStr, rebaixado), chamadas)
  }

  /**
   * Whether the download of `p` writes its file: the path resolves, the
   * folder can be made, the call succeeds, `cXmlNfe` is text and
   * `write_text` does not raise.
   */
  predicate Escreve(reply: (string, Json, nat) -> Outcome<Obj>, m: Mundo, p: NotaPendente)
  {
    var lugar := RootUtils.GerarXmlPath(p.chave, p.dEmi, p.nNF, Resultado);
    lugar.Ok? && !MkdirFalha(m.fs, lugar.value.0)
    && var res := reply("ObterNfe", ParamsObter(p.nIdNF), |m.chamadas|);
       res.Ok? && TextoXml(GetOr(res.value, "cXmlNfe", JStr(""))).Ok?
       && !WriteFalha(Fs.Mkdir(m.fs, lugar.value.0), lugar.value.1)
  }

  /** The download that reaches `write_text`, step by step: the folder, the file, then the row. */
  lemma BaixarXmlEscrito(reply: (string, Json, nat) -> Outcome<Obj>, unescape: string -> string, m: Mundo, p: NotaPendente)
    requires Escreve(reply, m, p)
    ensures var lugar := RootUtils.GerarXmlPath(p.chave, p.dEmi, p.nNF, Resultado).value;
            var xmlStr := unescape(GetOr(reply("ObterNfe", ParamsObter(p.nIdNF), |m.chamadas|).value, "cXmlNfe", JStr("")).s);
            BaixarXml(reply, unescape, m, p)
            == Mundo(WriteFile(Fs.Mkdir(m.fs, lugar.0), lugar.1, Utf8(xmlStr)),
                     RootUtils.StatusXmlApos(m.rows, p.chave, lugar.1, xmlStr, Exists(m.fs, lugar.1)),
                     m.chamadas + [("ObterNfe", ParamsObter(p.nIdNF))])
  {
    var lugar := RootUtils.GerarXmlPath(p.chave, p.dEmi, p.nNF, Resultado).value;
    MkdirDeeper(m.fs, lugar.0, lugar.1);
  }

  /**
   * The store follows the write: when the download stops before it the
   * table is as it was; when it writes, the file holds the unescaped XML and
   * only the note's row is marked, re-downloaded exactly when the file was
   * there before, and empty exactly when the text is blank.
   */
  lemma BaixarXmlOrdem(reply: (string, Json, nat) -> Outcome<Obj>, unescape: string -> string, m: Mundo, p: NotaPendente)
    ensures !Escreve(reply, m, p) ==> BaixarXml(reply, unescape, m, p).rows == m.rows
    ensures Escreve(reply, m, p) ==>
              var r := BaixarXml(reply, unescape, m, p);
              var caminho := RootUtils.GerarXmlPath(p.chave, p.dEmi, p.nNF, Resultado).value.1;
              var xmlStr := unescape(GetOr(reply("ObterNfe", ParamsObter(p.nIdNF), |m.chamadas|).value, "cXmlNfe", JStr("")).s);
              caminho in r.fs.files && r.fs.files[caminho] == Utf8(xmlStr)
              && r.rows == RootUtils.StatusXmlApos(m.rows, p.chave, caminho, xmlStr, Exists(m.fs, caminho))
  {
    if Escreve(reply, m, p) {
      BaixarXmlEscrito(reply, unescape, m, p);
    }
  }

  /** A reply without `cXmlNfe` leaves an empty file, and the row is marked as empty. */
  lemma BaixarXmlSemConteudo(reply: (string, Json, nat) -> Outcome<Obj>, unescape: string -> string, m: Mundo, p: NotaPendente)
    requires RootUtils.GerarXmlPath(p.chave, p.dEmi, p.nNF, Resultado).Ok?
    requires var res := reply("ObterNfe", ParamsObter(p.nIdNF), |m.chamadas|);
             res.Ok? && "cXmlNfe" !in res.value
    requires unescape("") == ""
    requires p.chave != [] && p.chave in m.rows
    requires var lugar := RootUtils.GerarXmlPath(p.chave, p.dEmi, p.nNF, Resultado).value;
             !MkdirFalha(m.fs, lugar.0) && !WriteFalha(Fs.Mkdir(m.fs, lugar.0), lugar.1)
    ensures var caminho := RootUtils.GerarXmlPath(p.chave, p.dEmi, p.nNF, Resultado).value.1;
            var r := BaixarXml(reply, unescape, m, p);
            caminho in r.fs.files && r.fs.files[caminho] == [] && r.rows[p.chave].xmlBaixado && r.rows[p.chave].xmlVazio
  {
    BaixarXmlEscrito(reply, unescape, m, p);
    assert Strip("") == [];
  }

  /**
   * `@with_retries(max_retries=3, delay=2)` around a body that catches every
   * exception: the body runs once, nothing is slept, and the wrapper
   * returns what the body returned.
   */
  lemma RetentativasInertes<T>(corpo: nat -> Outcome<T>)
    requires forall i: nat :: corpo(i).Ok?
    ensures RootOmieClient.Retries(RootOmieClient.MaxRetries, RootOmieClient.Delay, corpo, 1)
            == RootOmieClient.Execucao(Ok(Some(corpo(0).value)), 1, [])
  {
    assert corpo(0).Ok?;
  }

  /** The body of `baixar_xml_individual`; the decorator around it is inert (`RetentativasInertes`). */
  method BaixarXmlIndividual(h: Host, t: Table, p: NotaPendente)
    modifies h, t
    ensures MundoDe(h, t) == BaixarXml(h.clientReply, h.unescape, old(MundoDe(h, t)), p)
    ensures h.posts == old(h.posts) && h.sleeps == old(h.sleeps)
  {
    var lugar := RootUtils.GerarXmlPath(p.chave, p.dEmi, p.nNF, Resultado);
    if lugar.Raise? {
      return;
    }
    var pasta := lugar.value.0;
    var caminho := lugar.value.1;
    var criada := h.Mkdir(pasta);
    if !criada {
      return;
    }
    var rebaixado := Exists(h.fs, caminho);
    var data := h.ClientCall("ObterNfe", ParamsObter(p.nIdNF));
    if data.Raise? {
      return;
    }
    var texto := TextoXml(GetOr(data.value, "cXmlNfe", JStr("")));
    if texto.Raise? {
      return;
    }
    var xmlStr := h.unescape(texto.value);
    var escrito := h.WriteText(caminho, xmlStr);
    if !escrito {
      return;
    }
    RootUtils.AtualizarStatusXml(t, p.chave, caminho, xmlStr, rebaixado);
  }

  // ---------------------------------------------------------------- baixar_xmls

  /** The downloads of the notes of `ordem`, one after the other. */
  function BaixarTodas(reply: (string, Json, nat) -> Outcome<Obj>, unescape: string -> string,
                       m: Mundo, ordem: seq<NotaPendente>): Mundo
    decreases |ordem|
  {
    if ordem == [] then m
    else BaixarXml(reply, unescape, BaixarTodas(reply, unescape, m, ordem[..|ordem| - 1]), ordem[|ordem| - 1])
  }

  /** A download, complete or not, changes no row but its note's, and no key. */
  lemma BaixarXmlSoSuaLinha(reply: (string, Json, nat) -> Outcome<Obj>, unescape: string -> string, m: Mundo, p: NotaPendente)
    ensures var r := BaixarXml(reply, unescape, m, p);
            r.rows.Keys == m.rows.Keys && forall k | k in m.rows && k != p.chave :: r.rows[k] == m.rows[k]
  {
    BaixarXmlOrdem(reply, unescape, m, p);
  }

  /** The rows of notes outside `ordem` are left as they were, and so is the set of keys. */
  lemma {:induction false} BaixarTodasPreserva(reply: (string, Json, nat) -> Outcome<Obj>, unescape: string -> string,
                                               m: Mundo, ordem: seq<NotaPendente>, k: string)
    requires k in m.rows
    requires forall i | 0 <= i < |ordem| :: ordem[i].chave != k
    ensures var r := BaixarTodas(reply, unescape, m, ordem);
            r.rows.Keys == m.rows.Keys && r.rows[k] == m.rows[k]
    decreases |ordem|
  {
    if ordem != [] {
      var antes := ordem[..|ordem| - 1];
      BaixarTodasPreserva(reply, unescape, m, antes, k);
      BaixarXmlSoSuaLinha(reply, unescape, BaixarTodas(reply, unescape, m, antes), ordem[|ordem| - 1]);
    }
  }

  /**
   * `baixar_xmls(client, db_name)`: the pending rows are read once, then
   * each is downloaded in turn, in some order `ordem` that lists each of
   * them exactly once.
   */
  method BaixarXmls(h: Host, t: Table) returns (ghost ordem: seq<NotaPendente>)
    modifies h, t
    ensures forall p :: p in ordem <==> p in Pendentes(old(t.rows))
    ensures |ordem| == |Pendentes(old(t.rows))|
    ensures MundoDe(h, t) == BaixarTodas(h.clientReply, h.unescape, old(MundoDe(h, t)), ordem)
    ensures h.posts == old(h.posts) && h.sleeps == old(h.sleeps)
  {
    var rows := Pendentes(t.rows);
    ghost var m0 := MundoDe(h, t);
    var restantes := rows;
    ordem := [];
    while restantes != {}
      invariant restantes <= rows
      invariant forall p :: p in ordem <==> p in rows && p !in restantes
      invariant |ordem| + |restantes| == |rows|
      invariant MundoDe(h, t) == BaixarTodas(h.clientReply, h.unescape, m0, ordem)
      invariant h.posts == old(h.posts) && h.sleeps == old(h.sleeps)
      decreases |restantes|
    {
      var p :| p in restantes;
      BaixarXmlIndividual(h, t, p);
      assert (ordem + [p])[..|ordem|] == ordem;
      ordem := ordem + [p];
      restantes := restantes - {p};
    }
  }
}
