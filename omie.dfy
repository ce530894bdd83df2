/**
 * What the harvest scripts share: the Omie client's endpoints and request
 * envelope, the query of one page of `ListarNF`, the note fields each
 * listing copies into a record, the rows still to download, and the page
 * counter that every `listar_nfs` runs.
 */
module Omie {
  import opened Wrappers
  import opened Text
  import opened Json
  import opened Store
  import opened Host

  // ---------------------------------------------------------------- the client

  /** The credentials and the two endpoints of an `OmieClient`, or of a script's constants. */
  datatype Cliente = Cliente(appKey: string, appSecret: string, baseUrlNf: string, baseUrlXml: string)

  /** The default `base_url_nf` and `base_url_xml`. */
  const UrlNfPadrao: string := "https://app.omie.com.br/api/v1/produtos/nfconsultar/"
  const UrlXmlPadrao: string := "https://app.omie.com.br/api/v1/produtos/dfedocs/"

  /** The endpoint of a method: the listing URL for `ListarNF` and the documents URL for anything else. */
  function Url(c: Cliente, metodo: string): (u: string)
    ensures metodo == "ListarNF" ==> u == c.baseUrlNf
    ensures metodo != "ListarNF" ==> u == c.baseUrlXml
  {
    if metodo == "ListarNF" then c.baseUrlNf else c.baseUrlXml
  }

  /** The request body `{"app_key", "app_secret", "call": metodo, "param": [params]}`. */
  function Envelope(c: Cliente, metodo: string, params: Json): (p: Json)
    ensures p.JObj? && p.fields.Keys == {"app_key", "app_secret", "call", "param"}
  {
    JObj(map["app_key" := JStr(c.appKey), "app_secret" := JStr(c.appSecret),
             "call" := JStr(metodo), "param" := JList([params])])
  }

  /** How the server reads a body back: the credentials, the method called and its one parameter object. */
  function Desembrulhar(p: Json): Option<(string, string, string, Json)>
  {
    if p.JObj? && "app_key" in p.fields && "app_secret" in p.fields && "call" in p.fields && "param" in p.fields
       && p.fields["app_key"].JStr? && p.fields["app_secret"].JStr? && p.fields["call"].JStr?
       && p.fields["param"].JList? && |p.fields["param"].items| == 1
    then Some((p.fields["app_key"].s, p.fields["app_secret"].s, p.fields["call"].s, p.fields["param"].items[0]))
    else None
  }

  /** The envelope carries the credentials, the method and the parameters, and nothing is lost. */
  lemma EnvelopeDesembrulha(c: Cliente, metodo: string, params: Json)
    ensures Desembrulhar(Envelope(c, metodo, params)) == Some((c.appKey, c.appSecret, metodo, params))
  {
    var f := Envelope(c, metodo, params).fields;
    assert f["param"].items == [params];
  }

  /** The POST of a call: the method's endpoint and its envelope. */
  function Requisicao(c: Cliente, metodo: string, params: Json): Request
  {
    Request(Url(c, metodo), Envelope(c, metodo, params))
  }

  // ---------------------------------------------------------------- the listing query

  /** The query settings: `records_per_page`, `start_date` and `end_date`. */
  datatype Consulta = Consulta(registrosPorPagina: int, dEmiInicial: string, dEmiFinal: string)

  /** The parameters of page `pagina` of `ListarNF`: issued notes, production, summaries only, by code. */
  function ParamsListar(q: Consulta, pagina: int): (p: Json)
    ensures p.JObj? && "pagina" in p.fields && p.fields["pagina"] == JInt(pagina)
  {
    JObj(map[
      "pagina" := JInt(pagina),
      "registros_por_pagina" := JInt(q.registrosPorPagina),
      "apenas_importado_api" := JStr("N"),
      "dEmiInicial" := JStr(q.dEmiInicial),
      "dEmiFinal" := JStr(q.dEmiFinal),
      "tpNF" := JInt(1),
      "tpAmb" := JInt(1),
      "cDetalhesPedido" := JStr("N"),
      "cApenasResumo" := JStr("S"),
      "ordenar_por" := JStr("CODIGO")])
  }

  /** Two page queries differ in the page number and in nothing else. */
  lemma ParamsListarSoPagina(q: Consulta, a: int, b: int)
    ensures ParamsListar(q, b) == JObj(ParamsListar(q, a).fields["pagina" := JInt(b)])
  {
  }

  // ---------------------------------------------------------------- reading a reply

  /** `j[k]`: a dict without the key raises KeyError, anything but a dict TypeError. */
  function Indexar(j: Json, k: string): (r: Outcome<Json>)
    ensures r.Ok? <==> j.JObj? && k in j.fields
    ensures r.Ok? ==> r.value == j.fields[k]
    ensures r.Raise? ==> r.exc == (if j.JObj? then KeyError else TypeError)
  {
    if !j.JObj? then Raise(TypeError)
    else if k in j.fields then Ok(j.fields[k])
    else Raise(KeyError)
  }

  /** `j[k]` as the receiver of `.get`: anything but a dict there has no `.get`. */
  function Secao(j: Json, k: string): (r: Outcome<Obj>)
    ensures r.Ok? <==> j.JObj? && k in j.fields && j.fields[k].JObj?
    ensures r.Ok? ==> r.value == j.fields[k].fields
  {
    match Indexar(j, k)
    case Raise(e) => Raise(e)
    case Ok(v) => if v.JObj? then Ok(v.fields) else Raise(AttributeError)
  }

  /** `data.get(...)` needs a dict. */
  function ComoDict(j: Json): (r: Outcome<Obj>)
    ensures r.Ok? <==> j.JObj?
  {
    if j.JObj? then Ok(j.fields) else Raise(AttributeError)
  }

  /** `for x in j`: a list yields its items, a string its characters, a dict its keys; None and numbers raise TypeError. */
  function Itens(j: Json): (r: Outcome<seq<Json>>)
    ensures r.Raise? <==> j.JNull? || j.JInt?
    ensures r.Raise? ==> r.exc == TypeError
    ensures j.JList? ==> r == Ok(j.items)
    ensures r.Ok? && !j.JList? ==> forall i | 0 <= i < |r.value| :: r.value[i].JStr?
    ensures r.Ok? ==> (r.value == [] <==> !Truthy(j))
  {
    match j
    case JList(items) => Ok(items)
    case JStr(s) => Ok(seq(|s|, i requires 0 <= i < |s| => JStr([s[i]])))
    case JObj(m) => Ok(seq(|m|, _ => JStr([])))   // the keys: strings, whatever their text
    case _ => Raise(TypeError)
  }

  /** `data.get("total_de_paginas", 1)` as the right side of `pagina >= ...`: only a number compares. */
  function TotalPaginas(data: Obj): (r: Outcome<int>)
    ensures "total_de_paginas" !in data ==> r == Ok(1)
    ensures r.Ok? <==> GetOr(data, "total_de_paginas", JInt(1)).JInt?
  {
    match GetOr(data, "total_de_paginas", JInt(1))
    case JInt(i) => Ok(i)
    case _ => Raise(TypeError)
  }

  /** The text `html.unescape` and `write_text` accept: a string; anything else raises TypeError before a byte is written. */
  function TextoXml(j: Json): (r: Outcome<string>)
    ensures r.Ok? <==> j.JStr?
  {
    if j.JStr? then Ok(j.s) else Raise(TypeError)
  }

  /**
   * `requests.post(...)`, `raise_for_status()` and `json()`: a failed
   * connection or a timeout raises, a status from 400 to 599 raises, a body
   * that is not JSON raises ValueError.
   */
  function CorpoRequests(reply: Reply): (r: Outcome<Json>)
    ensures r.Ok? <==> reply.Response? && !(400 <= reply.status < 600) && reply.body.Some?
    ensures r.Ok? ==> r.value == reply.body.value
  {
    match reply
    case ConnectionFailed => Raise(NetworkError)
    case TimedOut => Raise(TimeoutError)
    case Response(status, body) =>
      if 400 <= status < 600 then Raise(HttpStatusError(status))
      else if body.None? then Raise(ValueError)
      else Ok(body.value)
  }

  /**
   * `session.post(...)` with aiohttp, then `raise_for_status()` (which
   * raises from 400 on), `json()` (which raises on a body that is not JSON)
   * and the check that the result is a dict (ValueError otherwise).
   */
  function CorpoAiohttp(reply: Reply): (r: Outcome<Obj>)
    ensures r.Ok? <==> reply.Response? && reply.status < 400 && reply.body.Some? && reply.body.value.JObj?
    ensures r.Ok? ==> r.value == reply.body.value.fields
    ensures reply.Response? && reply.status < 400 && reply.body.Some? && !reply.body.value.JObj? ==> r == Raise(ValueError)
  {
    match reply
    case ConnectionFailed => Raise(NetworkError)
    case TimedOut => Raise(TimeoutError)
    case Response(status, body) =>
      if status >= 400 then Raise(HttpStatusError(status))
      else if body.None? then Raise(ValueError)
      else if body.value.JObj? then Ok(body.value.fields)
      else Raise(ValueError)
  }

  /** A column value as the JSON parameter it is sent as. */
  function JsonDe(v: SqlVal): Json
  {
    match v
    case Null => JNull
    case Int(i) => JInt(i)
    case Text(s) => JStr(s)
  }

  /** The parameters of `ObterNfe` for a note id. */
  function ParamsObter(nIdNF: SqlVal): Json
  {
    JObj(map["nIdNfe" := JsonDe(nIdNF)])
  }

  // ---------------------------------------------------------------- one note of a page

  /** The sections of a note a record reads: `compl`, `ide`, `nfDestInt` and `total.ICMSTot`. */
  datatype Secoes = Secoes(compl: Obj, ide: Obj, dest: Obj, icms: Obj)

  /** The sections, read in the order of the record literal; the first one missing or not a dict raises. */
  function SecoesDaNota(nf: Json): (r: Outcome<Secoes>)
    ensures r.Ok? <==> Secao(nf, "compl").Ok? && Secao(nf, "ide").Ok? && Secao(nf, "nfDestInt").Ok?
                       && Indexar(nf, "total").Ok? && Secao(Indexar(nf, "total").value, "ICMSTot").Ok?
    ensures r.Ok? ==> r.value == Secoes(nf.fields["compl"].fields, nf.fields["ide"].fields,
                                        nf.fields["nfDestInt"].fields, nf.fields["total"].fields["ICMSTot"].fields)
    ensures !nf.JObj? ==> r.Raise? && r.exc == TypeError
  {
    match Secao(nf, "compl")
    case Raise(e) => Raise(e)
    case Ok(compl) =>
      match Secao(nf, "ide")
      case Raise(e) => Raise(e)
      case Ok(ide) =>
        match Secao(nf, "nfDestInt")
        case Raise(e) => Raise(e)
        case Ok(dest) =>
          match Indexar(nf, "total")
          case Raise(e) => Raise(e)
          case Ok(total) =>
            match Secao(total, "ICMSTot")
            case Raise(e) => Raise(e)
            case Ok(icms) => Ok(Secoes(compl, ide, dest, icms))
  }

  /** The record dict the listings build from the sections, with `vNF` as given. */
  function Registro(s: Secoes, vNF: Json): Obj
  {
    map[
      "cChaveNFe" := Get(s.compl, "cChaveNFe"),
      "nIdNF" := Get(s.compl, "nIdNF"),
      "nIdPedido" := Get(s.compl, "nIdPedido"),
      "dCan" := Get(s.ide, "dCan"),
      "dEmi" := Get(s.ide, "dEmi"),
      "dInut" := Get(s.ide, "dInut"),
      "dReg" := Get(s.ide, "dReg"),
      "dSaiEnt" := Get(s.ide, "dSaiEnt"),
      "hEmi" := Get(s.ide, "hEmi"),
      "hSaiEnt" := Get(s.ide, "hSaiEnt"),
      "mod" := Get(s.ide, "mod"),
      "nNF" := Get(s.ide, "nNF"),
      "serie" := Get(s.ide, "serie"),
      "tpAmb" := Get(s.ide, "tpAmb"),
      "tpNF" := Get(s.ide, "tpNF"),
      "cnpj_cpf" := Get(s.dest, "cnpj_cpf"),
      "cRazao" := Get(s.dest, "cRazao"),
      "vNF" := vNF]
  }

  /** The record of a note with `vNF` as the API gives it, as the root listings and `src/baixar_parallel.py` build it. */
  function RegistroDaNota(nf: Json): (r: Outcome<Obj>)
    ensures r.Ok? <==> SecoesDaNota(nf).Ok?
    ensures r.Ok? ==> r.value == Registro(SecoesDaNota(nf).value, Get(SecoesDaNota(nf).value.icms, "vNF"))
  {
    match SecoesDaNota(nf)
    case Raise(e) => Raise(e)
    case Ok(s) => Ok(Registro(s, Get(s.icms, "vNF")))
  }

  /** The key a record carries is the note's `compl.cChaveNFe`, and its date and number are `ide.dEmi` and `ide.nNF`. */
  lemma RegistroDaNotaCampos(nf: Json)
    requires RegistroDaNota(nf).Ok?
    ensures var r := RegistroDaNota(nf).value;
            r["cChaveNFe"] == Get(nf.fields["compl"].fields, "cChaveNFe")
            && r["dEmi"] == Get(nf.fields["ide"].fields, "dEmi")
            && r["nNF"] == Get(nf.fields["ide"].fields, "nNF")
            && r["vNF"] == Get(nf.fields["total"].fields["ICMSTot"].fields, "vNF")
  {
    var s := SecoesDaNota(nf).value;
    var r := Registro(s, Get(s.icms, "vNF"));
    assert r["cChaveNFe"] == Get(s.compl, "cChaveNFe") && r["dEmi"] == Get(s.ide, "dEmi");
    assert r["nNF"] == Get(s.ide, "nNF") && r["vNF"] == Get(s.icms, "vNF");
  }

  // ---------------------------------------------------------------- rows to download

  /** `SELECT nIdNF, cChaveNFe, dEmi, nNF FROM notas ...`. */
  datatype NotaPendente = NotaPendente(nIdNF: SqlVal, chave: string, dEmi: Option<string>, nNF: Option<string>)

  /** `... WHERE xml_baixado = 0`, as a set: a row's selection carries its own key. */
  function Pendentes(rows: Rows): (r: set<NotaPendente>)
    ensures forall p | p in r :: p.chave in rows && !rows[p.chave].xmlBaixado
                                 && p == NotaPendente(rows[p.chave].nIdNF, p.chave, rows[p.chave].dEmi, rows[p.chave].nNF)
    ensures forall k | k in rows && !rows[k].xmlBaixado ::
              NotaPendente(rows[k].nIdNF, k, rows[k].dEmi, rows[k].nNF) in r
  {
    set k | k in rows && !rows[k].xmlBaixado :: NotaPendente(rows[k].nIdNF, k, rows[k].dEmi, rows[k].nNF)
  }

  // ---------------------------------------------------------------- saving the notes of a page

  /** The table after some notes were saved, and the exception that stopped the loop, if one did. */
  datatype Gravacao = Gravacao(rows: Rows, erro: Option<Exc>)

  /**
   * `for nf in notas: salvar_nota({...})`, with `salvar` the table after one
   * record: the first note that cannot be read or saved stops the loop, and
   * what was saved before it stays.
   */
  function SalvarNotas(salvar: (Rows, Obj) -> Outcome<Rows>, rows: Rows, notas: seq<Json>): (g: Gravacao)
    decreases |notas|
  {
    if notas == [] then Gravacao(rows, None)
    else
      match RegistroDaNota(notas[0])
      case Raise(e) => Gravacao(rows, Some(e))
      case Ok(reg) =>
        match salvar(rows, reg)
        case Raise(e) => Gravacao(rows, Some(e))
        case Ok(rows2) => SalvarNotas(salvar, rows2, notas[1..])
  }

  /** When no save alters a stored row, neither does the loop. */
  lemma {:induction false} SalvarNotasEstende(salvar: (Rows, Obj) -> Outcome<Rows>, rows: Rows, notas: seq<Json>)
    requires forall r: Rows, o: Obj :: salvar(r, o).Ok? ==> Estende(r, salvar(r, o).value)
    ensures Estende(rows, SalvarNotas(salvar, rows, notas).rows)
    decreases |notas|
  {
    if notas != [] && RegistroDaNota(notas[0]).Ok? {
      var reg := RegistroDaNota(notas[0]).value;
      if salvar(rows, reg).Ok? {
        var rows2 := salvar(rows, reg).value;
        SalvarNotasEstende(salvar, rows2, notas[1..]);
        EstendeTransitiva(rows, rows2, SalvarNotas(salvar, rows2, notas[1..]).rows);
      }
    }
  }

  /** The notes before a failing one are all saved, the failing one stops the loop, and none after it is read. */
  lemma {:induction false} SalvarNotasParaNaFalha(salvar: (Rows, Obj) -> Outcome<Rows>, rows: Rows,
                                                  antes: seq<Json>, nf: Json, depois: seq<Json>)
    requires SalvarNotas(salvar, rows, antes).erro.None?
    requires RegistroDaNota(nf).Raise?
    ensures SalvarNotas(salvar, rows, antes + [nf] + depois)
            == Gravacao(SalvarNotas(salvar, rows, antes).rows, Some(RegistroDaNota(nf).exc))
    decreases |antes|
  {
    if antes == [] {
      assert antes + [nf] + depois == [nf] + depois;
    } else {
      assert (antes + [nf] + depois)[0] == antes[0];
      assert (antes + [nf] + depois)[1..] == antes[1..] + [nf] + depois;
      var reg := RegistroDaNota(antes[0]).value;
      SalvarNotasParaNaFalha(salvar, salvar(rows, reg).value, antes[1..], nf, depois);
    }
  }

  /** Once a note stopped the loop, the notes after it are never read. */
  lemma {:induction false} SalvarNotasPara(salvar: (Rows, Obj) -> Outcome<Rows>, rows: Rows, antes: seq<Json>, depois: seq<Json>)
    requires SalvarNotas(salvar, rows, antes).erro.Some?
    ensures SalvarNotas(salvar, rows, antes + depois) == SalvarNotas(salvar, rows, antes)
    decreases |antes|
  {
    assert (antes + depois)[0] == antes[0];
    var reg := RegistroDaNota(antes[0]);
    if reg.Ok? && salvar(rows, reg.value).Ok? {
      assert (antes + depois)[1..] == antes[1..] + depois;
      SalvarNotasPara(salvar, salvar(rows, reg.value).value, antes[1..], depois);
    }
  }

  /** When the notes so far were all saved, one more note is saved into the table they left. */
  lemma {:induction false} SalvarNotasSnoc(salvar: (Rows, Obj) -> Outcome<Rows>, rows: Rows, antes: seq<Json>, nf: Json)
    requires SalvarNotas(salvar, rows, antes).erro.None?
    ensures SalvarNotas(salvar, rows, antes + [nf]) == SalvarNotas(salvar, SalvarNotas(salvar, rows, antes).rows, [nf])
    decreases |antes|
  {
    if antes == [] {
      assert antes + [nf] == [nf];
    } else {
      assert (antes + [nf])[0] == antes[0];
      assert (antes + [nf])[1..] == antes[1..] + [nf];
      var reg := RegistroDaNota(antes[0]).value;
      SalvarNotasSnoc(salvar, salvar(rows, reg).value, antes[1..], nf);
    }
  }

  /** The loop over a single note: read it, then save it. */
  lemma SalvarNotasUma(salvar: (Rows, Obj) -> Outcome<Rows>, rows: Rows, nf: Json)
    ensures var reg := RegistroDaNota(nf);
            SalvarNotas(salvar, rows, [nf])
            == if reg.Raise? then Gravacao(rows, Some(reg.exc))
               else if salvar(rows, reg.value).Raise? then Gravacao(rows, Some(salvar(rows, reg.value).exc))
               else Gravacao(salvar(rows, reg.value).value, None)
  {
    assert [nf][1..] == [];
  }

  /** `gravar` is the loop over notes with `salvar`, named so that a caller need not look inside. */
  ghost predicate Grava(salvar: (Rows, Obj) -> Outcome<Rows>, gravar: (Rows, seq<Json>) -> Gravacao)
  {
    forall r: Rows, ns: seq<Json> {:trigger SalvarNotas(salvar, r, ns)} :: gravar(r, ns) == SalvarNotas(salvar, r, ns)
  }

  /** `SalvarNotasSnoc` and `SalvarNotasPara` told through `gravar`. */
  lemma GravarPasso(salvar: (Rows, Obj) -> Outcome<Rows>, gravar: (Rows, seq<Json>) -> Gravacao,
                    rows: Rows, antes: seq<Json>, nf: Json, depois: seq<Json>)
    requires Grava(salvar, gravar) && gravar(rows, antes).erro.None?
    ensures gravar(rows, antes + [nf]) == gravar(gravar(rows, antes).rows, [nf])
    ensures gravar(rows, antes + [nf]).erro.Some? ==> gravar(rows, antes + [nf] + depois) == gravar(rows, antes + [nf])
  {
    assert gravar(rows, antes) == SalvarNotas(salvar, rows, antes);
    SalvarNotasSnoc(salvar, rows, antes, nf);
    assert gravar(rows, antes + [nf]) == SalvarNotas(salvar, rows, antes + [nf]);
    assert gravar(gravar(rows, antes).rows, [nf]) == SalvarNotas(salvar, gravar(rows, antes).rows, [nf]);
    if gravar(rows, antes + [nf]).erro.Some? {
      SalvarNotasPara(salvar, rows, antes + [nf], depois);
      assert gravar(rows, antes + [nf] + depois) == SalvarNotas(salvar, rows, antes + [nf] + depois);
    }
  }

  // ---------------------------------------------------------------- the page counter

  /** Why a listing stopped. */
  datatype Parada = UltimaPagina | PaginaVazia | Falha(exc: Exc)

  /** One turn of a `while True` over pages: go on to the next page, or `break`. */
  datatype Passo<S> = Avanca(estado: S) | Para(estado: S, motivo: Parada)

  /** How a listing ended: the state, the pages requested, and why (None: the model's page bound was reached). */
  datatype Listagem<S> = Listagem(estado: S, paginas: seq<int>, motivo: Option<Parada>)

  /**
   * `pagina = 1; while True: ...; pagina += 1`, run for at most `limite`
   * pages: each turn requests one page, and only a `Para` ends the loop.
   */
  function Paginar<S>(passo: (S, int) -> Passo<S>, s: S, pagina: int, limite: nat): (l: Listagem<S>)
    ensures |l.paginas| <= limite
    ensures forall i | 0 <= i < |l.paginas| :: l.paginas[i] == pagina + i
    ensures l.motivo.None? ==> |l.paginas| == limite
    ensures l.motivo.Some? ==> |l.paginas| >= 1
    decreases limite
  {
    if limite == 0 then Listagem(s, [], None)
    else
      match passo(s, pagina)
      case Para(s2, m) => Listagem(s2, [pagina], Some(m))
      case Avanca(s2) =>
        var l := Paginar(passo, s2, pagina + 1, limite - 1);
        Listagem(l.estado, [pagina] + l.paginas, l.motivo)
  }

  /** The state before the `k`-th turn (from 0), when the turns before it went on. */
  function EstadoAntes<S>(passo: (S, int) -> Passo<S>, s: S, pagina: int, k: nat): S
    decreases k
  {
    if k == 0 then s
    else
      match passo(s, pagina)
      case Para(s2, _) => s2
      case Avanca(s2) => EstadoAntes(passo, s2, pagina + 1, k - 1)
  }

  /**
   * Every page but the last went on, and the last one is where the listing
   * stopped, with the state and the reason it gave.
   */
  lemma {:induction false} PaginarPassos<S>(passo: (S, int) -> Passo<S>, s: S, pagina: int, limite: nat, i: nat)
    requires i < |Paginar(passo, s, pagina, limite).paginas|
    ensures var l := Paginar(passo, s, pagina, limite);
            var st := passo(EstadoAntes(passo, s, pagina, i), pagina + i);
            (i + 1 < |l.paginas| ==> st.Avanca?)
            && (i + 1 == |l.paginas| && l.motivo.Some? ==> st == Para(l.estado, l.motivo.value))
            && (i + 1 == |l.paginas| && l.motivo.None? ==> st == Avanca(l.estado))
    decreases limite
  {
    if i > 0 {
      var s2 := passo(s, pagina).estado;
      PaginarPassos(passo, s2, pagina + 1, limite - 1, i - 1);
    }
  }

  /** A reason no turn ever gives is never why the listing stopped. */
  lemma {:induction false} PaginarNuncaPara<S>(passo: (S, int) -> Passo<S>, m: Parada, s: S, pagina: int, limite: nat)
    requires forall x: S, p: int :: passo(x, p).Para? ==> passo(x, p).motivo != m
    ensures Paginar(passo, s, pagina, limite).motivo != Some(m)
    decreases limite
  {
    if limite > 0 && passo(s, pagina).Avanca? {
      PaginarNuncaPara(passo, m, passo(s, pagina).estado, pagina + 1, limite - 1);
    }
  }

  /** The entries `f(a), f(a + 1), ..., f(a + n - 1)`. */
  function Registros<T>(f: int -> T, a: int, n: nat): (r: seq<T>)
    ensures |r| == n && forall i | 0 <= i < n :: r[i] == f(a + i)
    decreases n
  {
    if n == 0 then [] else [f(a)] + Registros(f, a + 1, n - 1)
  }

  /**
   * When every turn adds one entry for its page to a log in the state (a
   * request, a call), the listing adds one entry per page, pages
   * `pagina, pagina + 1, ...` in order, after what was logged before.
   */
  lemma {:induction false} PaginarRegistra<S, T>(passo: (S, int) -> Passo<S>, log: S -> seq<T>, f: int -> T,
                                                 s: S, pagina: int, limite: nat)
    requires forall x: S, p: int :: log(passo(x, p).estado) == log(x) + [f(p)]
    ensures var l := Paginar(passo, s, pagina, limite);
            log(l.estado) == log(s) + Registros(f, pagina, |l.paginas|)
    decreases limite
  {
    if limite > 0 {
      var s2 := passo(s, pagina).estado;
      assert log(s2) == log(s) + [f(pagina)];
      if passo(s, pagina).Avanca? {
        PaginarRegistra(passo, log, f, s2, pagina + 1, limite - 1);
        var n := |Paginar(passo, s2, pagina + 1, limite - 1).paginas|;
        assert log(s) + [f(pagina)] + Registros(f, pagina + 1, n) == log(s) + Registros(f, pagina, n + 1);
      }
    }
  }

  /** A property every turn keeps holds of the state the listing ends in. */
  lemma {:induction false} PaginarPreserva<S>(passo: (S, int) -> Passo<S>, inv: S -> bool, s: S, pagina: int, limite: nat)
    requires inv(s)
    requires forall x: S, p: int :: inv(x) ==> inv(passo(x, p).estado)
    ensures inv(Paginar(passo, s, pagina, limite).estado)
    decreases limite
  {
    if limite > 0 && passo(s, pagina).Avanca? {
      PaginarPreserva(passo, inv, passo(s, pagina).estado, pagina + 1, limite - 1);
    }
  }
}
