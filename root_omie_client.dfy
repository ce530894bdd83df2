/**
 * The root `omie_client_async.py`: the decorator `with_retries`, and the
 * client whose `call_api` posts one envelope and accepts only a dict,
 * wrapped in three attempts two seconds apart.
 */
module RootOmieClient {
  import opened Wrappers
  import opened Json
  import opened Host
  import opened Omie

  /** What a decorated call did: what it returned or raised, how many times the body ran, and the sleeps between runs. */
  datatype Execucao<T> = Execucao(out: Outcome<Option<T>>, chamadas: nat, esperas: seq<nat>)

  /** The sleeps `delay*a, delay*(a+1), ..., delay*(b-1)`. */
  function Lineares(delay: nat, a: nat, b: nat): (s: seq<nat>)
    requires a <= b
    ensures |s| == b - a && forall i | 0 <= i < |s| :: s[i] == delay * (a + i)
  {
    if b == a then [] else Lineares(delay, a, b - 1) + [delay * (b - 1)]
  }

  /**
   * `with_retries(max_retries, delay)` from attempt `tentativa` on, where
   * `f(i)` is what the (i+1)-th run of the body returns or raises (the loop
   * catches every exception the body raises).  With no attempt left the
   * wrapper falls off the loop and returns None.
   */
  function Retries<T>(maxRetries: int, delay: nat, f: nat -> Outcome<T>, tentativa: nat): (e: Execucao<T>)
    requires tentativa >= 1
    ensures e.chamadas <= if maxRetries >= tentativa then maxRetries - tentativa + 1 else 0
    ensures maxRetries < tentativa ==> e == Execucao(Ok(None), 0, [])
    ensures |e.esperas| == if e.chamadas == 0 then 0 else e.chamadas - 1
    ensures e.out.Ok? && e.out.value.Some? ==>
              e.chamadas >= 1 && f(tentativa + e.chamadas - 2) == Ok(e.out.value.value)
    ensures e.out.Raise? ==>
              e.chamadas >= 1 && tentativa + e.chamadas - 1 == maxRetries && f(maxRetries - 1) == Raise(e.out.exc)
    ensures e.out == Ok(None) <==> maxRetries < tentativa
    decreases if maxRetries >= tentativa then maxRetries - tentativa + 1 else 0
  {
    if tentativa > maxRetries then Execucao(Ok(None), 0, [])
    else
      match f(tentativa - 1)
      case Ok(v) => Execucao(Ok(Some(v)), 1, [])
      case Raise(x) =>
        if tentativa == maxRetries then Execucao(Raise(x), 1, [])
        else
          var r := Retries(maxRetries, delay, f, tentativa + 1);
          Execucao(r.out, 1 + r.chamadas, [delay * tentativa] + r.esperas)
  }

  /**
   * When the run of attempt `j + 1` is the first to return, its result is
   * returned, the body ran up to it and no further, and the sleeps before
   * it grew linearly.
   */
  lemma {:induction false} RetriesPrimeiroSucesso<T>(maxRetries: int, delay: nat, f: nat -> Outcome<T>, tentativa: nat, j: nat)
    requires 1 <= tentativa <= j + 1 <= maxRetries
    requires forall i | tentativa - 1 <= i < j :: f(i).Raise?
    requires f(j).Ok?
    ensures Retries(maxRetries, delay, f, tentativa)
            == Execucao(Ok(Some(f(j).value)), j + 2 - tentativa, Lineares(delay, tentativa, j + 1))
    decreases j + 1 - tentativa
  {
    if tentativa - 1 < j {
      assert f(tentativa - 1).Raise?;
      RetriesPrimeiroSucesso(maxRetries, delay, f, tentativa + 1, j);
      assert Lineares(delay, tentativa, j + 1) == [delay * tentativa] + Lineares(delay, tentativa + 1, j + 1);
    }
  }

  /**
   * When every remaining run raises, the body runs once per remaining
   * attempt, the last exception propagates, and there is no sleep after
   * the last failure.
   */
  lemma {:induction false} RetriesTodasFalham<T>(maxRetries: int, delay: nat, f: nat -> Outcome<T>, tentativa: nat)
    requires 1 <= tentativa <= maxRetries
    requires forall i | tentativa - 1 <= i < maxRetries :: f(i).Raise?
    ensures Retries(maxRetries, delay, f, tentativa)
            == Execucao(Raise(f(maxRetries - 1).exc), maxRetries - tentativa + 1, Lineares(delay, tentativa, maxRetries))
    decreases maxRetries - tentativa
  {
    assert f(tentativa - 1).Raise?;
    if tentativa < maxRetries {
      RetriesTodasFalham(maxRetries, delay, f, tentativa + 1);
      assert Lineares(delay, tentativa, maxRetries) == [delay * tentativa] + Lineares(delay, tentativa + 1, maxRetries);
    }
  }

  /** A failed attempt that is not the last sleeps `delay*attempt` and hands over to the next one. */
  lemma RetriesFalhaPasso<T>(maxRetries: int, delay: nat, f: nat -> Outcome<T>, tentativa: nat)
    requires 1 <= tentativa < maxRetries && f(tentativa - 1).Raise?
    ensures var r := Retries(maxRetries, delay, f, tentativa + 1);
            Retries(maxRetries, delay, f, tentativa) == Execucao(r.out, 1 + r.chamadas, [delay * tentativa] + r.esperas)
  {
  }

  // ---------------------------------------------------------------- the client

  /** The decorator's arguments on `call_api`: three attempts, `delay=2` seconds. */
  const MaxRetries := 3
  const Delay: nat := 2000

  /** The runs of the body when the POSTs before them number `n0`: the same request, answered in turn. */
  function Tentativas(respond: (Request, nat) -> Reply, req: Request, n0: nat): nat -> Outcome<Obj>
  {
    (i: nat) => CorpoAiohttp(respond(req, n0 + i))
  }

  /**
   * The decorated `call_api(session, metodo, params)`: each attempt posts
   * the same envelope to the method's endpoint; the result, the POSTs and
   * the sleeps are those of `with_retries(3, 2)` over the replies.
   */
  method CallApi(h: Host, c: Cliente, metodo: string, params: Json) returns (out: Outcome<Option<Obj>>)
    modifies h
    ensures var e := Retries(MaxRetries, Delay, Tentativas(h.respond, Requisicao(c, metodo, params), |old(h.posts)|), 1);
            out == e.out
            && h.posts == old(h.posts) + Repetir(Requisicao(c, metodo, params), e.chamadas)
            && h.sleeps == old(h.sleeps) + e.esperas
    ensures h.fs == old(h.fs) && h.clientCalls == old(h.clientCalls)
  {
    var payload := Envelope(c, metodo, params);
    var url := Url(c, metodo);
    out := ComRetentativas(h, Request(url, payload), MaxRetries, Delay);
  }

  /** The `wrapper` of `with_retries(max_retries, delay)` around the body of `call_api` on the request `req`. */
  method ComRetentativas(h: Host, req: Request, maxRetries: int, delay: nat) returns (out: Outcome<Option<Obj>>)
    modifies h
    ensures var e := Retries(maxRetries, delay, Tentativas(h.respond, req, |old(h.posts)|), 1);
            out == e.out
            && h.posts == old(h.posts) + Repetir(req, e.chamadas)
            && h.sleeps == old(h.sleeps) + e.esperas
    ensures h.fs == old(h.fs) && h.clientCalls == old(h.clientCalls)
  {
    ghost var f := Tentativas(h.respond, req, |h.posts|);
    ghost var posts0 := h.posts;
    ghost var sleeps0 := h.sleeps;
    var attempt := 1;
    while attempt <= maxRetries
      invariant 1 <= attempt <= if maxRetries >= 1 then maxRetries else 1
      invariant forall i | 0 <= i < attempt - 1 :: f(i).Raise?
      invariant h.posts == posts0 + Repetir(req, attempt - 1)
      invariant h.sleeps == sleeps0 + Lineares(delay, 1, attempt)
      invariant h.fs == old(h.fs) && h.clientCalls == old(h.clientCalls)
      decreases maxRetries + 1 - attempt
    {
      var r := Tentativa(h, req, delay, attempt, attempt == maxRetries);
      assert h.posts == posts0 + Repetir(req, attempt);
      assert r == f(attempt - 1);
      if r.Ok? {
        RetriesPrimeiroSucesso(maxRetries, delay, f, 1, attempt - 1);
        return Ok(Some(r.value));
      }
      if attempt == maxRetries {
        RetriesTodasFalham(maxRetries, delay, f, 1);
        return Raise(r.exc);
      }
      attempt := attempt + 1;
    }
    assert Lineares(delay, 1, attempt) == [];
    return Ok(None);
  }

  /**
   * One turn of `wrapper`'s loop: the POST and the body's verdict, then
   * `asyncio.sleep(delay * attempt)` when it raised and attempts remain.
   */
  method Tentativa(h: Host, req: Request, delay: nat, attempt: nat, ultima: bool) returns (r: Outcome<Obj>)
    modifies h
    requires attempt >= 1
    ensures r == CorpoAiohttp(h.respond(req, |old(h.posts)|)) && h.posts == old(h.posts) + [req]
    ensures r.Raise? && !ultima ==> h.sleeps == old(h.sleeps) + [delay * attempt]
    ensures r.Ok? || ultima ==> h.sleeps == old(h.sleeps)
    ensures h.fs == old(h.fs) && h.clientCalls == old(h.clientCalls)
  {
    var reply := h.Post(req);
    r := CorpoAiohttp(reply);
    if r.Raise? && !ultima {
      h.Sleep(delay * attempt);
    }
  }

  /** A 2xx or 3xx reply whose JSON body is not an object. */
  predicate NaoDict(reply: Reply)
  {
    reply.Response? && reply.status < 400 && reply.body.Some? && !reply.body.value.JObj?
  }

  /**
   * A server that keeps answering with JSON that is not a dict: three
   * POSTs, ValueError from the last one, and sleeps of 2 s and 4 s.
   */
  lemma CallApiNaoDict(respond: (Request, nat) -> Reply, req: Request, n0: nat)
    requires forall i | n0 <= i < n0 + 3 :: NaoDict(respond(req, i))
    ensures Retries(MaxRetries, Delay, Tentativas(respond, req, n0), 1) == Execucao(Raise(ValueError), 3, [2000, 4000])
  {
    var f := Tentativas(respond, req, n0);
    forall i: nat | i < 3 ensures f(i) == Raise(ValueError) {
      assert NaoDict(respond(req, n0 + i));
      assert f(i) == CorpoAiohttp(respond(req, n0 + i));
    }
    RetriesTodasFalham(MaxRetries, Delay, f, 1);
    assert Lineares(Delay, 1, 2) == [2000];
  }
}
