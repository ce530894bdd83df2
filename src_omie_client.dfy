/**
 * `src/omie_client_async.py`: `call_api` posts one envelope up to five
 * times.  A 429 waits `2**attempt` seconds, a 5xx and every exception
 * `1.5*attempt` seconds, and only a dict ends the loop; when the five
 * attempts are spent it raises RuntimeError naming the method.
 */
module SrcOmieClient {
  import opened Wrappers
  import opened Json
  import opened Host
  import opened Omie

  /** `max_retries = 5`. */
  const MaxRetries := 5

  /** What one attempt does once its reply is in: return this dict, or sleep this long and go on. */
  datatype Veredito = Devolve(d: Obj) | Espera(ms: nat)

  /**
   * The body of one attempt: 429 and 5xx are looked at before
   * `raise_for_status()`; every other failure is an exception, and each of
   * the three handlers sleeps `1.5*attempt`.
   */
  function Decisao(reply: Reply, attempt: nat): (v: Veredito)
    ensures v.Devolve? <==> reply.Response? && reply.status < 400 && reply.body.Some? && reply.body.value.JObj?
    ensures v.Devolve? ==> v.d == reply.body.value.fields
    ensures reply.Response? && reply.status == 429 ==> v == Espera(1000 * Pow2(attempt))
    ensures v.Espera? && !(reply.Response? && reply.status == 429) ==> v.ms == 1500 * attempt
  {
    if reply.Response? && reply.status == 429 then Espera(1000 * Pow2(attempt))
    else if reply.Response? && 500 <= reply.status < 600 then Espera(1500 * attempt)
    else
      match CorpoAiohttp(reply)
      case Ok(d) => Devolve(d)
      case Raise(_) => Espera(1500 * attempt)
  }

  /** The verdict of the attempt numbered `i + 1`, when `n0` POSTs came before the first one. */
  function Intento(respond: (Request, nat) -> Reply, req: Request, n0: nat, i: nat): Veredito
  {
    Decisao(respond(req, n0 + i), i + 1)
  }

  /** What the loop did: the result or the exception, the sleeps, and the number of attempts (POSTs). */
  datatype Rodada = Rodada(out: Outcome<Obj>, esperas: seq<nat>, tentativas: nat)

  /** The loop from attempt `attempt` on. */
  function Laco(respond: (Request, nat) -> Reply, req: Request, n0: nat, metodo: string, attempt: nat): (r: Rodada)
    requires attempt >= 1
    ensures r.tentativas <= if attempt <= MaxRetries then MaxRetries + 1 - attempt else 0
    ensures r.out.Raise? ==>
              r.out.exc == RuntimeError(metodo)
              && r.tentativas == (if attempt <= MaxRetries then MaxRetries + 1 - attempt else 0)
              && |r.esperas| == r.tentativas
    ensures r.out.Ok? ==>
              r.tentativas >= 1 && |r.esperas| == r.tentativas - 1
              && Intento(respond, req, n0, attempt + r.tentativas - 2) == Devolve(r.out.value)
    decreases if attempt <= MaxRetries then MaxRetries + 1 - attempt else 0
  {
    if attempt > MaxRetries then Rodada(Raise(RuntimeError(metodo)), [], 0)
    else
      match Intento(respond, req, n0, attempt - 1)
      case Devolve(d) => Rodada(Ok(d), [], 1)
      case Espera(ms) =>
        var r := Laco(respond, req, n0, metodo, attempt + 1);
        Rodada(r.out, [ms] + r.esperas, 1 + r.tentativas)
  }

  /** The sleep of a verdict, 0 for a return. */
  function PausaDe(v: Veredito): nat
  {
    if v.Espera? then v.ms else 0
  }

  /** The sleeps of the attempts numbered `a + 1` to `b`. */
  function Pausas(respond: (Request, nat) -> Reply, req: Request, n0: nat, a: nat, b: nat): (s: seq<nat>)
    requires a <= b
    ensures |s| == b - a
    decreases b - a
  {
    if a == b then [] else [PausaDe(Intento(respond, req, n0, a))] + Pausas(respond, req, n0, a + 1, b)
  }

  /** One more attempt adds its sleep at the end. */
  lemma {:induction false} PausasSnoc(respond: (Request, nat) -> Reply, req: Request, n0: nat, a: nat, b: nat)
    requires a <= b
    ensures Pausas(respond, req, n0, a, b + 1) == Pausas(respond, req, n0, a, b) + [PausaDe(Intento(respond, req, n0, b))]
    decreases b - a
  {
    if a < b {
      PausasSnoc(respond, req, n0, a + 1, b);
    }
  }

  /** The first attempt that gets a dict returns it, after the sleeps of the attempts before it. */
  lemma {:induction false} LacoPrimeiro(respond: (Request, nat) -> Reply, req: Request, n0: nat, metodo: string, attempt: nat, j: nat)
    requires 1 <= attempt <= j + 1 <= MaxRetries
    requires forall i | attempt - 1 <= i < j :: Intento(respond, req, n0, i).Espera?
    requires Intento(respond, req, n0, j).Devolve?
    ensures var r := Laco(respond, req, n0, metodo, attempt);
            r.out.Ok? && r.out.value == Intento(respond, req, n0, j).d
            && r.esperas == Pausas(respond, req, n0, attempt - 1, j) && r.tentativas == j + 2 - attempt
    decreases j + 1 - attempt
  {
    if attempt - 1 < j {
      assert Intento(respond, req, n0, attempt - 1).Espera?;
      LacoPrimeiro(respond, req, n0, metodo, attempt + 1, j);
    }
  }

  /** When no attempt gets a dict, all five sleep and RuntimeError follows. */
  lemma {:induction false} LacoEsgota(respond: (Request, nat) -> Reply, req: Request, n0: nat, metodo: string, attempt: nat)
    requires 1 <= attempt <= MaxRetries + 1
    requires forall i | attempt - 1 <= i < MaxRetries :: Intento(respond, req, n0, i).Espera?
    ensures var r := Laco(respond, req, n0, metodo, attempt);
            r.out == Raise(RuntimeError(metodo))
            && r.esperas == Pausas(respond, req, n0, attempt - 1, MaxRetries) && r.tentativas == MaxRetries + 1 - attempt
    decreases MaxRetries + 1 - attempt
  {
    if attempt <= MaxRetries {
      assert Intento(respond, req, n0, attempt - 1).Espera?;
      LacoEsgota(respond, req, n0, metodo, attempt + 1);
    }
  }

  /**
   * `call_api(session, metodo, params)`: the same envelope, to the method's
   * endpoint, on every attempt; the result, the POSTs and the sleeps are
   * those of the loop over the replies.
   */
  method CallApi(h: Host, c: Cliente, metodo: string, params: Json) returns (out: Outcome<Obj>)
    modifies h
    ensures var r := Laco(h.respond, Requisicao(c, metodo, params), |old(h.posts)|, metodo, 1);
            out == r.out
            && h.posts == old(h.posts) + Repetir(Requisicao(c, metodo, params), r.tentativas)
            && h.sleeps == old(h.sleeps) + r.esperas
    ensures h.fs == old(h.fs) && h.clientCalls == old(h.clientCalls)
  {
    var url := Url(c, metodo);
    var payload := Envelope(c, metodo, params);
    var req := Request(url, payload);
    ghost var n0 := |h.posts|;
    ghost var posts0 := h.posts;
    ghost var sleeps0 := h.sleeps;
    var attempt := 1;
    while attempt <= MaxRetries
      invariant 1 <= attempt <= MaxRetries + 1
      invariant forall i | 0 <= i < attempt - 1 :: Intento(h.respond, req, n0, i).Espera?
      invariant h.posts == posts0 + Repetir(req, attempt - 1)
      invariant h.sleeps == sleeps0 + Pausas(h.respond, req, n0, 0, attempt - 1)
      invariant h.fs == old(h.fs) && h.clientCalls == old(h.clientCalls)
      decreases MaxRetries + 1 - attempt
    {
      var v := Tentativa(h, req, attempt);
      assert h.posts == posts0 + Repetir(req, attempt);
      assert v == Intento(h.respond, req, n0, attempt - 1);
      if v.Devolve? {
        LacoPrimeiro(h.respond, req, n0, metodo, 1, attempt - 1);
        return Ok(v.d);
      }
      PausasSnoc(h.respond, req, n0, 0, attempt - 1);
      attempt := attempt + 1;
    }
    LacoEsgota(h.respond, req, n0, metodo, 1);
    return Raise(RuntimeError(metodo));
  }

  /**
   * One turn of the attempt loop: the POST, then the 429 and 5xx checks,
   * `raise_for_status()`, `json()` and the dict check; a failure sleeps
   * before the next turn.
   */
  method Tentativa(h: Host, req: Request, attempt: nat) returns (v: Veredito)
    modifies h
    ensures v == Decisao(h.respond(req, |old(h.posts)|), attempt) && h.posts == old(h.posts) + [req]
    ensures h.sleeps == old(h.sleeps) + (if v.Espera? then [v.ms] else [])
    ensures h.fs == old(h.fs) && h.clientCalls == old(h.clientCalls)
  {
    var reply := h.Post(req);
    if reply.Response? && reply.status == 429 {
      v := Espera(1000 * Pow2(attempt));
      h.Sleep(v.ms);
      return;
    }
    if reply.Response? && 500 <= reply.status < 600 {
      v := Espera(1500 * attempt);
      h.Sleep(v.ms);
      return;
    }
    var corpo := CorpoAiohttp(reply);
    if corpo.Ok? {
      v := Devolve(corpo.value);
      return;
    }
    v := Espera(1500 * attempt);
    h.Sleep(v.ms);
  }

  /** A server that always answers 429: five POSTs, sleeps of 2, 4, 8, 16 and 32 seconds, then RuntimeError. */
  lemma SempreLimitado(respond: (Request, nat) -> Reply, req: Request, n0: nat, metodo: string)
    requires forall i | n0 <= i < n0 + MaxRetries :: respond(req, i).Response? && respond(req, i).status == 429
    ensures Laco(respond, req, n0, metodo, 1) == Rodada(Raise(RuntimeError(metodo)), [2000, 4000, 8000, 16000, 32000], 5)
  {
    forall i | 0 <= i < MaxRetries ensures Intento(respond, req, n0, i) == Espera(1000 * Pow2(i + 1)) {
      assert respond(req, n0 + i).status == 429;
    }
    LacoEsgota(respond, req, n0, metodo, 1);
    assert Pausas(respond, req, n0, 4, 5) == [32000];
    assert Pausas(respond, req, n0, 3, 5) == [16000, 32000];
    assert Pausas(respond, req, n0, 2, 5) == [8000, 16000, 32000];
    assert Pausas(respond, req, n0, 1, 5) == [4000, 8000, 16000, 32000];
  }
}
