/**
 * `src/extrator_async.py`: the listing of notes page by page into the
 * table and the download of the XML of every pending note.  Every API call
 * goes through `call_api_com_retentativa`, which first waits for the global
 * quarter-second gate and then asks the client passed in, retrying 429s
 * and 5xx statuses up to five attempts in all.
 */
module SrcExtrator {
  import opened Wrappers
  import opened Text
  import opened Json
  import opened Fs
  import opened Store
  import opened Host
  import opened Omie
  import SrcUtilsRate
  import SrcUtilsResolver
  import SrcUtilsRecords
  import SrcUtilsStatus

  // ---------------------------------------------------------------- the gate

  /** The 0.25 s between two requests. */
  const IntervaloMinimo: nat := 250

  /**
   * `respeitar_limite_requisicoes()`: `g` is the global `ULTIMA_REQUISICAO`.
   * The call returns at least 0.25 s after the time `g` held, and `g` then
   * holds the time of return.
   */
  method RespeitarLimiteRequisicoes(h: Host, g: SrcUtilsRate.UltimaChamada)
    modifies h, g
    ensures var w := SrcUtilsRate.Espera(old(h.Now()), old(g.instante), IntervaloMinimo);
            h.sleeps == old(h.sleeps) + (if w > 0 then [w] else []) && h.Now() == old(h.Now()) + w
    ensures g.instante == h.Now() && h.Now() >= old(g.instante) + IntervaloMinimo
    ensures h.fs == old(h.fs) && h.posts == old(h.posts) && h.clientCalls == old(h.clientCalls)
  {
    var agora := h.Now();
    var tempoDecorrido := agora - g.instante;
    if tempoDecorrido < IntervaloMinimo {
      h.Sleep(IntervaloMinimo - tempoDecorrido);
    }
    g.instante := h.Now();
  }

  // ---------------------------------------------------------------- normalizar_nota

  /** The text `float()` accepts here: an optional sign, then digits with at most one point, at least one digit. */
  predicate LiteralFloat(t: string)
  {
    var u := if |t| > 0 && (t[0] == '+' || t[0] == '-') then t[1..] else t;
    |u| >= 1
    && (AllDigits(u) || (|u| >= 2 && exists i | 0 <= i < |u| :: u[i] == '.' && AllDigits(u[..i]) && AllDigits(u[i + 1..])))
  }

  /** `v or 0`. */
  function OuZero(v: Json): (r: Json)
    ensures Truthy(v) ==> r == v
    ensures !Truthy(v) ==> r == JInt(0)
  {
    if Truthy(v) then v else JInt(0)
  }

  /** Whether `float(v)` returns: a number, or a string that spells one once stripped. */
  predicate ConverteFloat(v: Json)
  {
    match v
    case JInt(_) => true
    case JStr(s) => LiteralFloat(Strip(s))
    case _ => false
  }

  /**
   * `normalizar_nota(nf)`: the record of the note, or `{}` when a section
   * is missing or of the wrong type, or `vNF` is not a number.  Apart from
   * `vNF` (kept as the value handed to `float`) it is the record the other
   * listings build.
   */
  function NormalizarNota(nf: Json): (r: Obj)
    ensures r == map[] <==>
              !(SecoesDaNota(nf).Ok? && ConverteFloat(OuZero(Get(SecoesDaNota(nf).value.icms, "vNF"))))
    ensures r != map[] ==>
              RegistroDaNota(nf).Ok? && r.Keys == RegistroDaNota(nf).value.Keys
              && (forall k | k in r && k != "vNF" :: r[k] == RegistroDaNota(nf).value[k])
              && r["vNF"] == OuZero(RegistroDaNota(nf).value["vNF"])
  {
    match SecoesDaNota(nf)
    case Raise(_) => map[]
    case Ok(s) =>
      var v := OuZero(Get(s.icms, "vNF"));
      if ConverteFloat(v) then
        assert "cChaveNFe" in Registro(s, v);
        Registro(s, v)
      else map[]
  }

  /** `[r for nf in notas if (r := normalizar_nota(nf))]`. */
  function Normalizados(nfs: seq<Json>): (r: seq<Obj>)
    ensures |r| <= |nfs|
    ensures forall i | 0 <= i < |r| :: r[i] != map[]
    decreases |nfs|
  {
    if nfs == [] then []
    else
      var n := NormalizarNota(nfs[0]);
      (if n == map[] then [] else [n]) + Normalizados(nfs[1..])
  }

  /** A record is kept exactly when it is the non-empty normalisation of some note. */
  lemma {:induction false} NormalizadosMembros(nfs: seq<Json>, r: Obj)
    ensures r in Normalizados(nfs) <==> r != map[] && exists i | 0 <= i < |nfs| :: NormalizarNota(nfs[i]) == r
    decreases |nfs|
  {
    if nfs != [] {
      NormalizadosMembros(nfs[1..], r);
      if exists i | 0 <= i < |nfs| :: NormalizarNota(nfs[i]) == r {
        var i :| 0 <= i < |nfs| && NormalizarNota(nfs[i]) == r;
        if i > 0 {
          assert nfs[1..][i - 1] == nfs[i];
        }
      }
      if exists i | 0 <= i < |nfs| - 1 :: NormalizarNota(nfs[1..][i]) == r {
        var i :| 0 <= i < |nfs| - 1 && NormalizarNota(nfs[1..][i]) == r;
        assert nfs[i + 1] == nfs[1..][i];
      }
    }
  }

  /** The comprehension keeps the order of the notes: it distributes over concatenation. */
  lemma {:induction false} NormalizadosConcat(a: seq<Json>, b: seq<Json>)
    ensures Normalizados(a + b) == Normalizados(a) + Normalizados(b)
    decreases |a|
  {
    if a == [] {
      assert a + b == b;
    } else {
      assert (a + b)[0] == a[0];
      assert (a + b)[1..] == a[1..] + b;
      NormalizadosConcat(a[1..], b);
    }
  }

  // ---------------------------------------------------------------- call_api_com_retentativa

  /** `max_retentativas = 5`. */
  const MaxRetentativas := 5

  /** The attempts left from attempt `t` on. */
  function Restantes(t: nat): nat
  {
    if t <= MaxRetentativas then MaxRetentativas + 1 - t else 0
  }

  /**
   * The `except` clauses on attempt `t`: a 429 sleeps `2**t` seconds, a
   * status from 500 on `1+t` seconds; every other exception is re-raised (None).
   */
  function Reacao(e: Exc, t: nat): (w: Option<nat>)
    ensures w.Some? <==> e.HttpStatusError? && (e.status == 429 || e.status >= 500)
    ensures e == HttpStatusError(429) ==> w == Some(1000 * Pow2(t))
    ensures e.HttpStatusError? && e.status != 429 && e.status >= 500 ==> w == Some(1000 * (1 + t))
    ensures t >= 1 && w.Some? ==> w.value >= 2000
  {
    if e.HttpStatusError? && e.status == 429 then Some(1000 * Pow2(t))
    else if e.HttpStatusError? && e.status >= 500 then Some(1000 * (1 + t))
    else None
  }

  /** One turn of the attempt loop: the call's outcome, the handler's sleep, the sleeps and the clock after it, and the gate time. */
  datatype Vez = Vez(res: Outcome<Obj>, reacao: Option<nat>, sleeps: seq<nat>, agora: int, ultima: int)

  /**
   * Attempt `t`, when `n` client calls and the sleeps `sleeps` came before
   * it, the clock reads `agora` and the gate last let a request through at
   * `ultima`: the gate, the call, and the handler.
   */
  function UmaVez(reply: (string, Json, nat) -> Outcome<Obj>, metodo: string, params: Json,
                  n: nat, sleeps: seq<nat>, agora: int, ultima: int, t: nat): (v: Vez)
    ensures v.res == reply(metodo, params, n)
    ensures v.reacao.Some? ==> v.res.Raise? && v.reacao == Reacao(v.res.exc, t)
    ensures v.reacao.Some? ==> v.agora == v.ultima + v.reacao.value
  {
    var w := SrcUtilsRate.Espera(agora, ultima, IntervaloMinimo);
    var res := reply(metodo, params, n);
    var re := if res.Raise? then Reacao(res.exc, t) else None;
    var espera := if re.Some? then re.value else 0;
    Vez(res, re, sleeps + (if w > 0 then [w] else []) + (if re.Some? then [espera] else []), agora + w + espera, agora + w)
  }

  /** What the whole loop did: the result, every sleep up to then, the number of calls, the clock and the gate time. */
  datatype Fluxo = Fluxo(out: Outcome<Obj>, sleeps: seq<nat>, chamadas: nat, agora: int, ultima: int)

  /**
   * `call_api_com_retentativa(client, session, metodo, params)` from attempt
   * `t` on.  The `n` in the decreases clause keeps a literal `t` from
   * unrolling all five attempts wherever the loop is mentioned.
   */
  function Retentativa(reply: (string, Json, nat) -> Outcome<Obj>, metodo: string, params: Json,
                       n: nat, sleeps: seq<nat>, agora: int, ultima: int, t: nat): (f: Fluxo)
    requires t >= 1
    ensures f.chamadas <= Restantes(t)
    ensures f.chamadas == 0 <==> t > MaxRetentativas
    ensures t <= MaxRetentativas && reply(metodo, params, n).Ok? ==> f.out == reply(metodo, params, n) && f.chamadas == 1
    ensures t <= MaxRetentativas && reply(metodo, params, n).Raise? && Reacao(reply(metodo, params, n).exc, t).None? ==>
              f.out == reply(metodo, params, n) && f.chamadas == 1
    ensures f.out.Ok? ==> f.chamadas >= 1 && reply(metodo, params, n + f.chamadas - 1) == f.out
    ensures f.out.Raise? ==>
              (f.chamadas == Restantes(t) && f.out == Raise(RuntimeError(metodo)))
              || (f.chamadas >= 1 && reply(metodo, params, n + f.chamadas - 1) == f.out
                  && Reacao(f.out.exc, t + f.chamadas - 1).None?)
    decreases Restantes(t), n
  {
    if t > MaxRetentativas then Fluxo(Raise(RuntimeError(metodo)), sleeps, 0, agora, ultima)
    else
      var v := UmaVez(reply, metodo, params, n, sleeps, agora, ultima, t);
      if v.reacao.None? then Fluxo(v.res, v.sleeps, 1, v.agora, v.ultima)
      else
        var r := Retentativa(reply, metodo, params, n + 1, v.sleeps, v.agora, v.ultima, t + 1);
        Fluxo(r.out, r.sleeps, 1 + r.chamadas, r.agora, r.ultima)
  }

  /** One attempt only adds sleeps, and the clock moves by what they add up to. */
  lemma UmaVezRelogio(reply: (string, Json, nat) -> Outcome<Obj>, metodo: string, params: Json,
                      n: nat, sleeps: seq<nat>, agora: int, ultima: int, t: nat)
    ensures var v := UmaVez(reply, metodo, params, n, sleeps, agora, ultima, t);
            sleeps <= v.sleeps && v.agora - Soma(v.sleeps) == agora - Soma(sleeps)
  {
    var v := UmaVez(reply, metodo, params, n, sleeps, agora, ultima, t);
    var w := SrcUtilsRate.Espera(agora, ultima, IntervaloMinimo);
    var s1 := sleeps + (if w > 0 then [w] else []);
    if w > 0 {
      SomaSnoc(sleeps, w);
    } else {
      assert s1 == sleeps;
    }
    if v.reacao.Some? {
      SomaSnoc(s1, v.reacao.value);
      assert v.sleeps == s1 + [v.reacao.value];
    } else {
      assert v.sleeps == s1;
    }
  }

  lemma UmaVezAcrescenta(reply: (string, Json, nat) -> Outcome<Obj>, metodo: string, params: Json,
                         n: nat, sleeps: seq<nat>, agora: int, ultima: int, t: nat)
    ensures sleeps <= UmaVez(reply, metodo, params, n, sleeps, agora, ultima, t).sleeps
  {
  }

  /** The loop only ever adds sleeps, and the clock moves by what they add up to. */
  lemma RetentativaRelogio(reply: (string, Json, nat) -> Outcome<Obj>, metodo: string, params: Json,
                           n: nat, sleeps: seq<nat>, agora: int, ultima: int, t: nat)
    requires t >= 1
    ensures var f := Retentativa(reply, metodo, params, n, sleeps, agora, ultima, t);
            sleeps <= f.sleeps && f.agora - Soma(f.sleeps) == agora - Soma(sleeps)
  {
    RetentativaAcrescenta(reply, metodo, params, n, sleeps, agora, ultima, t);
    RetentativaSoma(reply, metodo, params, n, sleeps, agora, ultima, t);
  }

  lemma {:induction false} RetentativaAcrescenta(reply: (string, Json, nat) -> Outcome<Obj>, metodo: string, params: Json,
                                                 n: nat, sleeps: seq<nat>, agora: int, ultima: int, t: nat)
    requires t >= 1
    ensures sleeps <= Retentativa(reply, metodo, params, n, sleeps, agora, ultima, t).sleeps
    decreases Restantes(t)
  {
    if t <= MaxRetentativas {
      UmaVezAcrescenta(reply, metodo, params, n, sleeps, agora, ultima, t);
      var v := UmaVez(reply, metodo, params, n, sleeps, agora, ultima, t);
      if v.reacao.Some? {
        var r := Retentativa(reply, metodo, params, n + 1, v.sleeps, v.agora, v.ultima, t + 1);
        RetentativaAcrescenta(reply, metodo, params, n + 1, v.sleeps, v.agora, v.ultima, t + 1);
        PrefixoTransitivo(sleeps, v.sleeps, r.sleeps);
      }
    }
  }

  lemma {:induction false} RetentativaSoma(reply: (string, Json, nat) -> Outcome<Obj>, metodo: string, params: Json,
                                           n: nat, sleeps: seq<nat>, agora: int, ultima: int, t: nat)
    requires t >= 1
    ensures var f := Retentativa(reply, metodo, params, n, sleeps, agora, ultima, t);
            f.agora - Soma(f.sleeps) == agora - Soma(sleeps)
    decreases Restantes(t)
  {
    if t <= MaxRetentativas {
      UmaVezRelogio(reply, metodo, params, n, sleeps, agora, ultima, t);
      var v := UmaVez(reply, metodo, params, n, sleeps, agora, ultima, t);
      if v.reacao.Some? {
        RetentativaSoma(reply, metodo, params, n + 1, v.sleeps, v.agora, v.ultima, t + 1);
      }
    }
  }

  lemma PrefixoTransitivo(a: seq<nat>, b: seq<nat>, c: seq<nat>)
    requires a <= b && b <= c
    ensures a <= c
  {
    assert c[..|a|] == b[..|a|];
  }

  /** The call numbered `j` (absolute), made on attempt `j + d`, raised what the handlers retry. */
  predicate FalhaRetentavel(reply: (string, Json, nat) -> Outcome<Obj>, metodo: string, params: Json, d: int, j: nat)
  {
    var res := reply(metodo, params, j);
    j + d >= 0 && res.Raise? && Reacao(res.exc, j + d).Some?
  }

  /** Retryable failures on every attempt left: RuntimeError naming the method, after one call per attempt. */
  lemma {:induction false} RetentativaEsgota(reply: (string, Json, nat) -> Outcome<Obj>, metodo: string, params: Json,
                                             n: nat, sleeps: seq<nat>, agora: int, ultima: int, t: nat, d: int)
    requires 1 <= t && d == t - n
    requires forall j | n <= j < n + Restantes(t) :: FalhaRetentavel(reply, metodo, params, d, j)
    ensures var f := Retentativa(reply, metodo, params, n, sleeps, agora, ultima, t);
            f.out == Raise(RuntimeError(metodo)) && f.chamadas == Restantes(t)
    decreases Restantes(t)
  {
    if t <= MaxRetentativas {
      assert FalhaRetentavel(reply, metodo, params, d, n);
      var v := UmaVez(reply, metodo, params, n, sleeps, agora, ultima, t);
      RetentativaEsgota(reply, metodo, params, n + 1, v.sleeps, v.agora, v.ultima, t + 1, d);
    }
  }

  /** The 429 sleeps from attempt `t` to the fifth: `2**t`, ..., `2**5` seconds. */
  function Recuos429(t: nat): (s: seq<nat>)
    ensures |s| == Restantes(t)
    decreases Restantes(t)
  {
    if t > MaxRetentativas then [] else [1000 * Pow2(t)] + Recuos429(t + 1)
  }

  /** The call numbered `j` (absolute) was answered with 429. */
  predicate Responde429(reply: (string, Json, nat) -> Outcome<Obj>, metodo: string, params: Json, j: nat)
  {
    reply(metodo, params, j) == Raise(HttpStatusError(429))
  }

  /**
   * A client that keeps failing with 429: after the first gate (a handler's
   * sleep of at least 2 s opens every later one), the sleeps are the
   * doubling backoffs of the remaining attempts, and RuntimeError follows.
   */
  lemma {:induction false} RetentativaSempre429(reply: (string, Json, nat) -> Outcome<Obj>, metodo: string, params: Json,
                                                n: nat, sleeps: seq<nat>, agora: int, ultima: int, t: nat)
    requires 1 <= t <= MaxRetentativas
    requires forall j | n <= j < n + Restantes(t) :: Responde429(reply, metodo, params, j)
    ensures var f := Retentativa(reply, metodo, params, n, sleeps, agora, ultima, t);
            var w := SrcUtilsRate.Espera(agora, ultima, IntervaloMinimo);
            f.out == Raise(RuntimeError(metodo)) && f.chamadas == Restantes(t)
            && f.sleeps == sleeps + (if w > 0 then [w] else []) + Recuos429(t)
    decreases Restantes(t)
  {
    Vez429(reply, metodo, params, n, sleeps, agora, ultima, t);
    RetentativaPasso(reply, metodo, params, n, sleeps, agora, ultima, t);
    var v := UmaVez(reply, metodo, params, n, sleeps, agora, ultima, t);
    var gate: seq<nat> := if SrcUtilsRate.Espera(agora, ultima, IntervaloMinimo) > 0 then [SrcUtilsRate.Espera(agora, ultima, IntervaloMinimo)] else [];
    var r := Retentativa(reply, metodo, params, n + 1, v.sleeps, v.agora, v.ultima, t + 1);
    if t < MaxRetentativas {
      RetentativaSempre429(reply, metodo, params, n + 1, v.sleeps, v.agora, v.ultima, t + 1);
      assert r.sleeps == v.sleeps + [] + Recuos429(t + 1);
      assert v.sleeps + [] == v.sleeps;
    } else {
      assert r.sleeps == v.sleeps;
      assert Recuos429(t + 1) == [];
    }
    assert Recuos429(t) == [1000 * Pow2(t)] + Recuos429(t + 1);
    Associa(sleeps + gate, [1000 * Pow2(t)], Recuos429(t + 1));
  }

  /** An attempt answered with 429 sleeps its backoff after the gate, and the next gate is open. */
  lemma Vez429(reply: (string, Json, nat) -> Outcome<Obj>, metodo: string, params: Json,
               n: nat, sleeps: seq<nat>, agora: int, ultima: int, t: nat)
    requires 1 <= t && Responde429(reply, metodo, params, n)
    ensures var v := UmaVez(reply, metodo, params, n, sleeps, agora, ultima, t);
            var w := SrcUtilsRate.Espera(agora, ultima, IntervaloMinimo);
            v.reacao == Some(1000 * Pow2(t)) && v.sleeps == sleeps + (if w > 0 then [w] else []) + [1000 * Pow2(t)]
            && SrcUtilsRate.Espera(v.agora, v.ultima, IntervaloMinimo) == 0
  {
  }

  /** Concatenation regroups. */
  lemma Associa<T>(a: seq<T>, b: seq<T>, c: seq<T>)
    ensures a + b + c == a + (b + c)
  {
  }

  /** From the first attempt the 429 backoffs are 2, 4, 8, 16 and 32 seconds. */
  lemma Recuos429DoPrimeiro()
    ensures Recuos429(1) == [2000, 4000, 8000, 16000, 32000]
  {
    assert Pow2(1) == 2 && Pow2(2) == 4 && Pow2(3) == 8;
    assert Pow2(4) == 16 && Pow2(5) == 32;
    assert Recuos429(6) == [];
    assert Recuos429(5) == [32000];
    assert Recuos429(4) == [16000, 32000];
    assert Recuos429(3) == [8000, 16000, 32000];
    assert Recuos429(2) == [4000, 8000, 16000, 32000];
  }

  /** Always 429 from the first attempt: sleeps of 2, 4, 8, 16 and 32 seconds after the gate, then RuntimeError. */
  lemma SempreLimitado(reply: (string, Json, nat) -> Outcome<Obj>, metodo: string, params: Json,
                       n: nat, sleeps: seq<nat>, agora: int, ultima: int)
    requires forall j | n <= j < n + MaxRetentativas :: Responde429(reply, metodo, params, j)
    ensures var f := Retentativa(reply, metodo, params, n, sleeps, agora, ultima, 1);
            var w := SrcUtilsRate.Espera(agora, ultima, IntervaloMinimo);
            f.out == Raise(RuntimeError(metodo)) && f.chamadas == 5
            && f.sleeps == sleeps + (if w > 0 then [w] else []) + [2000, 4000, 8000, 16000, 32000]
  {
    RetentativaSempre429(reply, metodo, params, n, sleeps, agora, ultima, 1);
    Recuos429DoPrimeiro();
  }

  /** The side of the world one attempt starts from: the client calls so far, the sleeps, the clock and the gate time. */
  datatype Est = Est(n: nat, sleeps: seq<nat>, agora: int, ultima: int)

  /** The loop from attempt `t` on, started from `e`. */
  function RetentativaDe(reply: (string, Json, nat) -> Outcome<Obj>, metodo: string, params: Json, e: Est, t: nat): Fluxo
    requires t >= 1
  {
    Retentativa(reply, metodo, params, e.n, e.sleeps, e.agora, e.ultima, t)
  }

  /** Where the loop stands after `k` attempts that were all retried, from `e0`. */
  function Apos(reply: (string, Json, nat) -> Outcome<Obj>, metodo: string, params: Json, e0: Est, k: nat): (e: Est)
    ensures e.n == e0.n + k
    ensures |e0.sleeps| <= |e.sleeps|
  {
    if k == 0 then e0
    else
      var e := Apos(reply, metodo, params, e0, k - 1);
      var v := UmaVez(reply, metodo, params, e.n, e.sleeps, e.agora, e.ultima, k);
      Est(e.n + 1, v.sleeps, v.agora, v.ultima)
  }

  /** The attempt numbered `i + 1`, after `i` retried ones. */
  function VezN(reply: (string, Json, nat) -> Outcome<Obj>, metodo: string, params: Json, e0: Est, i: nat): Vez
  {
    var e := Apos(reply, metodo, params, e0, i);
    UmaVez(reply, metodo, params, e.n, e.sleeps, e.agora, e.ultima, i + 1)
  }

  /** The first `k` attempts were all retried. */
  predicate Retentadas(reply: (string, Json, nat) -> Outcome<Obj>, metodo: string, params: Json, e0: Est, k: nat)
  {
    forall i | 0 <= i < k :: VezN(reply, metodo, params, e0, i).reacao.Some?
  }

  /** The loop from the first attempt ends as the loop from attempt `k + 1` does, once `k` attempts were retried. */
  lemma {:induction false} RetentativaDesde(reply: (string, Json, nat) -> Outcome<Obj>, metodo: string, params: Json, e0: Est, k: nat)
    requires k <= MaxRetentativas && Retentadas(reply, metodo, params, e0, k)
    ensures Resta(RetentativaDe(reply, metodo, params, e0, 1), RetentativaDe(reply, metodo, params, Apos(reply, metodo, params, e0, k), k + 1), k + 1)
    decreases k
  {
    if k > 0 {
      assert VezN(reply, metodo, params, e0, k - 1).reacao.Some?;
      RetentativaDesde(reply, metodo, params, e0, k - 1);
      var e := Apos(reply, metodo, params, e0, k - 1);
      var v := UmaVez(reply, metodo, params, e.n, e.sleeps, e.agora, e.ultima, k);
      assert Apos(reply, metodo, params, e0, k) == Est(e.n + 1, v.sleeps, v.agora, v.ultima);
      RestaPasso(RetentativaDe(reply, metodo, params, e0, 1), reply, metodo, params, e, k);
    }
  }

  /** The first attempt that is not retried ends the loop with its own outcome, sleeps, clock and gate. */
  lemma RetentativaFim(reply: (string, Json, nat) -> Outcome<Obj>, metodo: string, params: Json, e0: Est, k: nat)
    requires k < MaxRetentativas && Retentadas(reply, metodo, params, e0, k)
    requires VezN(reply, metodo, params, e0, k).reacao.None?
    ensures var e := Apos(reply, metodo, params, e0, k + 1);
            RetentativaDe(reply, metodo, params, e0, 1) == Fluxo(VezN(reply, metodo, params, e0, k).res, e.sleeps, k + 1, e.agora, e.ultima)
  {
    RetentativaDesde(reply, metodo, params, e0, k);
    var e := Apos(reply, metodo, params, e0, k);
    RestaFim(RetentativaDe(reply, metodo, params, e0, 1), reply, metodo, params, e.n, e.sleeps, e.agora, e.ultima, k + 1);
  }

  /** Five retried attempts: RuntimeError, with the sleeps, clock and gate after the fifth. */
  lemma RetentativaEsgotada(reply: (string, Json, nat) -> Outcome<Obj>, metodo: string, params: Json, e0: Est)
    requires Retentadas(reply, metodo, params, e0, MaxRetentativas)
    ensures var e := Apos(reply, metodo, params, e0, MaxRetentativas);
            RetentativaDe(reply, metodo, params, e0, 1) == Fluxo(Raise(RuntimeError(metodo)), e.sleeps, MaxRetentativas, e.agora, e.ultima)
  {
    RetentativaDesde(reply, metodo, params, e0, MaxRetentativas);
  }

  /**
   * How the loop ran, told through `vez` and `apos`, is the loop from the
   * first attempt: its outcome, its calls, its sleeps, the clock and the gate.
   */
  lemma RetentativaLaco(reply: (string, Json, nat) -> Outcome<Obj>, metodo: string, params: Json, e0: Est,
                        vez: nat -> Vez, apos: nat -> Est, feitas: nat, out: Outcome<Obj>)
    requires Descreve(reply, metodo, params, e0, vez, apos)
    requires 1 <= feitas <= MaxRetentativas && forall i | 0 <= i < feitas - 1 :: vez(i).reacao.Some?
    requires (vez(feitas - 1).reacao.None? && out == vez(feitas - 1).res)
             || (feitas == MaxRetentativas && vez(feitas - 1).reacao.Some? && out == Raise(RuntimeError(metodo)))
    ensures var e := apos(feitas);
            RetentativaDe(reply, metodo, params, e0, 1) == Fluxo(out, e.sleeps, feitas, e.agora, e.ultima)
  {
    forall i | 0 <= i < feitas - 1 ensures VezN(reply, metodo, params, e0, i).reacao.Some? {
      assert vez(i) == VezN(reply, metodo, params, e0, i);
    }
    assert vez(feitas - 1) == VezN(reply, metodo, params, e0, feitas - 1);
    assert apos(feitas) == Apos(reply, metodo, params, e0, feitas);
    if vez(feitas - 1).reacao.Some? {
      RetentativaEsgotada(reply, metodo, params, e0);
    } else {
      RetentativaFim(reply, metodo, params, e0, feitas - 1);
    }
  }

  /** The world as the next attempt sees it. */
  function EstDe(h: Host, g: SrcUtilsRate.UltimaChamada): Est
    reads h, g
  {
    Est(|h.clientCalls|, h.sleeps, h.Now(), g.instante)
  }

  /**
   * `call_api_com_retentativa(client, session, metodo, params)`, with `g`
   * the gate's global: the result and the API side afterwards are those of
   * a call through the loop.
   */
  method CallApiComRetentativa(h: Host, g: SrcUtilsRate.UltimaChamada, metodo: string, params: Json)
    returns (out: Outcome<Obj>)
    modifies h, g
    ensures var c := Chamar(h.clientReply, h.inicio, old(ApiDe(h, g)), metodo, params);
            out == c.0 && ApiDe(h, g) == c.1
    ensures h.fs == old(h.fs) && h.posts == old(h.posts)
  {
    ghost var a0 := ApiDe(h, g);
    ghost var e0 := Est(|a0.chamadas|, a0.sleeps, h.inicio + Soma(a0.sleeps), a0.ultima);
    ChamarFluxo(h.clientReply, h.inicio, a0, metodo, params, RetentativaDe(h.clientReply, metodo, params, e0, 1));
    ghost var vez := (i: nat) => VezN(h.clientReply, metodo, params, e0, i);
    ghost var apos := (i: nat) => Apos(h.clientReply, metodo, params, e0, i);
    ghost var feitas;
    out, feitas := Tentativas(h, g, metodo, params, e0, a0.chamadas, vez, apos);
    RetentativaLaco(h.clientReply, metodo, params, e0, vez, apos, feitas, out);
  }

  /** `vez` and `apos` name the attempts and the states between them, from `e0`. */
  ghost predicate Descreve(reply: (string, Json, nat) -> Outcome<Obj>, metodo: string, params: Json, e0: Est,
                           vez: nat -> Vez, apos: nat -> Est)
  {
    && (forall i: nat {:trigger VezN(reply, metodo, params, e0, i)} :: vez(i) == VezN(reply, metodo, params, e0, i))
    && (forall i: nat {:trigger Apos(reply, metodo, params, e0, i)} :: apos(i) == Apos(reply, metodo, params, e0, i))
  }

  /**
   * The `for tentativa in range(1, max_retentativas + 1)` loop, with the
   * attempts named by `vez` and the states by `apos`: it makes `feitas`
   * calls, and either all five were retried and it raises RuntimeError, or
   * the last one was not and its outcome is the result.
   */
  method Tentativas(h: Host, g: SrcUtilsRate.UltimaChamada, metodo: string, params: Json,
                    ghost e0: Est, ghost calls0: seq<(string, Json)>, ghost vez: nat -> Vez, ghost apos: nat -> Est)
    returns (out: Outcome<Obj>, ghost feitas: nat)
    modifies h, g
    requires Descreve(h.clientReply, metodo, params, e0, vez, apos)
    requires h.clientCalls == calls0 && EstDe(h, g) == apos(0)
    ensures h.clientCalls == calls0 + Repetir((metodo, params), feitas)
    ensures EstDe(h, g) == apos(feitas)
    ensures 1 <= feitas <= MaxRetentativas && forall i | 0 <= i < feitas - 1 :: vez(i).reacao.Some?
    ensures (vez(feitas - 1).reacao.None? && out == vez(feitas - 1).res)
            || (feitas == MaxRetentativas && vez(feitas - 1).reacao.Some? && out == Raise(RuntimeError(metodo)))
    ensures h.fs == old(h.fs) && h.posts == old(h.posts)
  {
    var tentativa := 1;
    while tentativa <= MaxRetentativas
      invariant 1 <= tentativa <= MaxRetentativas + 1
      invariant h.clientCalls == calls0 + Repetir((metodo, params), tentativa - 1)
      invariant EstDe(h, g) == apos(tentativa - 1)
      invariant forall i | 0 <= i < tentativa - 1 :: vez(i).reacao.Some?
      invariant h.fs == old(h.fs) && h.posts == old(h.posts)
      decreases MaxRetentativas + 1 - tentativa
    {
      var res, reacao := Turno(h, g, metodo, params, tentativa, e0, calls0, vez, apos);
      if reacao.None? {
        return res, tentativa;
      }
      tentativa := tentativa + 1;
    }
    return Raise(RuntimeError(metodo)), MaxRetentativas;
  }

  /** A turn of the loop after `tentativa - 1` retried ones: the attempt `vez(tentativa - 1)`. */
  method Turno(h: Host, g: SrcUtilsRate.UltimaChamada, metodo: string, params: Json, tentativa: nat,
               ghost e0: Est, ghost calls0: seq<(string, Json)>, ghost vez: nat -> Vez, ghost apos: nat -> Est)
    returns (res: Outcome<Obj>, reacao: Option<nat>)
    modifies h, g
    requires Descreve(h.clientReply, metodo, params, e0, vez, apos)
    requires 1 <= tentativa
    requires h.clientCalls == calls0 + Repetir((metodo, params), tentativa - 1)
    requires EstDe(h, g) == apos(tentativa - 1)
    ensures h.clientCalls == calls0 + Repetir((metodo, params), tentativa)
    ensures var v := vez(tentativa - 1);
            res == v.res && reacao == v.reacao && h.sleeps == v.sleeps && h.Now() == v.agora && g.instante == v.ultima
    ensures EstDe(h, g) == apos(tentativa)
    ensures h.fs == old(h.fs) && h.posts == old(h.posts)
  {
    ghost var e := Apos(h.clientReply, metodo, params, e0, tentativa - 1);
    assert vez(tentativa - 1) == VezN(h.clientReply, metodo, params, e0, tentativa - 1);
    assert apos(tentativa) == Apos(h.clientReply, metodo, params, e0, tentativa);
    res, reacao := Tentar(h, g, metodo, params, tentativa, e.n, e.sleeps, e.agora, e.ultima);
    RepetirSnoc(calls0, (metodo, params), tentativa - 1);
  }

  /** The loop from attempt `t` on ends as the whole loop `f0` does, with `t - 1` calls made before it. */
  ghost predicate Resta(f0: Fluxo, f: Fluxo, t: nat)
  {
    f0.out == f.out && f0.sleeps == f.sleeps && f0.chamadas == t - 1 + f.chamadas
    && f0.agora == f.agora && f0.ultima == f.ultima
  }

  /** A turn whose failure is not retried ends the loop with that turn's outcome, sleeps, clock and gate. */
  lemma RestaFim(f0: Fluxo, reply: (string, Json, nat) -> Outcome<Obj>, metodo: string, params: Json,
                 n: nat, sleeps: seq<nat>, agora: int, ultima: int, t: nat)
    requires 1 <= t <= MaxRetentativas
    requires Resta(f0, Retentativa(reply, metodo, params, n, sleeps, agora, ultima, t), t)
    requires UmaVez(reply, metodo, params, n, sleeps, agora, ultima, t).reacao.None?
    ensures var v := UmaVez(reply, metodo, params, n, sleeps, agora, ultima, t);
            f0.out == v.res && f0.sleeps == v.sleeps && f0.agora == v.agora && f0.ultima == v.ultima && f0.chamadas == t
  {
    RetentativaPasso(reply, metodo, params, n, sleeps, agora, ultima, t);
  }

  /** A turn the handler retries hands the rest of the loop over to the next attempt. */
  lemma RestaPasso(f0: Fluxo, reply: (string, Json, nat) -> Outcome<Obj>, metodo: string, params: Json, e: Est, t: nat)
    requires 1 <= t <= MaxRetentativas
    requires Resta(f0, RetentativaDe(reply, metodo, params, e, t), t)
    requires UmaVez(reply, metodo, params, e.n, e.sleeps, e.agora, e.ultima, t).reacao.Some?
    ensures var v := UmaVez(reply, metodo, params, e.n, e.sleeps, e.agora, e.ultima, t);
            Resta(f0, RetentativaDe(reply, metodo, params, Est(e.n + 1, v.sleeps, v.agora, v.ultima), t + 1), t + 1)
  {
    RetentativaPasso(reply, metodo, params, e.n, e.sleeps, e.agora, e.ultima, t);
  }

  /** One turn of the loop, then the rest of it when the handler retries. */
  lemma RetentativaPasso(reply: (string, Json, nat) -> Outcome<Obj>, metodo: string, params: Json,
                         n: nat, sleeps: seq<nat>, agora: int, ultima: int, t: nat)
    requires 1 <= t <= MaxRetentativas
    ensures var v := UmaVez(reply, metodo, params, n, sleeps, agora, ultima, t);
            var f := Retentativa(reply, metodo, params, n, sleeps, agora, ultima, t);
            var r := Retentativa(reply, metodo, params, n + 1, v.sleeps, v.agora, v.ultima, t + 1);
            f == if v.reacao.None? then Fluxo(v.res, v.sleeps, 1, v.agora, v.ultima)
                 else Fluxo(r.out, r.sleeps, 1 + r.chamadas, r.agora, r.ultima)
  {
  }

  /** One turn of the loop: the gate, the call, and the sleep of the handler that retries. */
  method Tentar(h: Host, g: SrcUtilsRate.UltimaChamada, metodo: string, params: Json, tentativa: nat,
                ghost n: nat, ghost sl: seq<nat>, ghost ag: int, ghost ul: int)
    returns (res: Outcome<Obj>, reacao: Option<nat>)
    modifies h, g
    requires n == |h.clientCalls| && sl == h.sleeps && ag == h.Now() && ul == g.instante
    ensures var v := UmaVez(h.clientReply, metodo, params, n, sl, ag, ul, tentativa);
            res == v.res && reacao == v.reacao && h.sleeps == v.sleeps && h.Now() == v.agora && g.instante == v.ultima
    ensures h.clientCalls == old(h.clientCalls) + [(metodo, params)]
    ensures h.fs == old(h.fs) && h.posts == old(h.posts)
  {
    RespeitarLimiteRequisicoes(h, g);
    res := h.ClientCall(metodo, params);
    reacao := None;
    if res.Raise? {
      reacao := Reacao(res.exc, tentativa);
      if reacao.Some? {
        h.Sleep(reacao.value);
      }
    }
  }

  // ---------------------------------------------------------------- the state the pipeline works on

  /** What the API calls see and change: the client calls, the sleeps and `ULTIMA_REQUISICAO`. */
  datatype Api = Api(chamadas: seq<(string, Json)>, sleeps: seq<nat>, ultima: int)

  /** The files, the table, and the API side. */
  datatype Mundo = Mundo(fs: FileSystem, rows: Rows, api: Api)

  function ApiDe(h: Host, g: SrcUtilsRate.UltimaChamada): Api
    reads h, g
  {
    Api(h.clientCalls, h.sleeps, g.instante)
  }

  function MundoDe(h: Host, g: SrcUtilsRate.UltimaChamada, t: Table): Mundo
    reads h, g, t
  {
    Mundo(h.fs, t.rows, ApiDe(h, g))
  }

  /**
   * A call through `call_api_com_retentativa` when the clock started at
   * `inicio`: what it gave, and the API side after it.
   */
  function Chamar(reply: (string, Json, nat) -> Outcome<Obj>, inicio: nat, a: Api, metodo: string, params: Json)
    : (Outcome<Obj>, Api)
  {
    var f := Retentativa(reply, metodo, params, |a.chamadas|, a.sleeps, inicio + Soma(a.sleeps), a.ultima, 1);
    (f.out, Api(a.chamadas + Repetir((metodo, params), f.chamadas), f.sleeps, f.ultima))
  }

  /** A call through the loop, given what the loop did from the first attempt. */
  lemma ChamarFluxo(reply: (string, Json, nat) -> Outcome<Obj>, inicio: nat, a: Api, metodo: string, params: Json, f: Fluxo)
    requires f == Retentativa(reply, metodo, params, |a.chamadas|, a.sleeps, inicio + Soma(a.sleeps), a.ultima, 1)
    ensures Chamar(reply, inicio, a, metodo, params) == (f.out, Api(a.chamadas + Repetir((metodo, params), f.chamadas), f.sleeps, f.ultima))
  {
  }

  // ---------------------------------------------------------------- listar_nfs

  /**
   * One turn of `listar_nfs`'s `while True` on page `pagina`: the call, the
   * empty-page stop, the batch save of the normalised records, then the
   * last-page stop; an exception anywhere ends the listing.
   */
  function PaginaA(reply: (string, Json, nat) -> Outcome<Obj>, inicio: nat, q: Consulta, s: Mundo, pagina: int)
    : (st: Passo<Mundo>)
    ensures var c := Chamar(reply, inicio, s.api, "ListarNF", ParamsListar(q, pagina));
            var notas := if c.0.Ok? then GetOr(c.0.value, "nfCadastro", JList([])) else JNull;
            (st == Para(s.(api := c.1), PaginaVazia) <==> c.0.Ok? && !Truthy(notas))
            && (c.0.Ok? && Truthy(notas) && Itens(notas).Ok? ==>
                  st.estado.rows == SrcUtilsRecords.LinhasAposLote(s.rows, Normalizados(Itens(notas).value), SrcUtilsRecords.TamanhoLotePadrao))
            && (c.0.Ok? && Truthy(notas) && Itens(notas).Ok?
                && SrcUtilsRecords.TriagemComoEscrita(Normalizados(Itens(notas).value)).Raise? ==>
                  st == Para(s.(api := c.1), Falha(TypeError)))
            && (st.Avanca? <==> c.0.Ok? && Truthy(notas) && Itens(notas).Ok?
                                && SrcUtilsRecords.TriagemComoEscrita(Normalizados(Itens(notas).value)).Ok?
                                && TotalPaginas(c.0.value).Ok? && pagina < TotalPaginas(c.0.value).value)
    ensures Estende(s.rows, st.estado.rows) && st.estado.fs == s.fs
  {
    var c := Chamar(reply, inicio, s.api, "ListarNF", ParamsListar(q, pagina));
    var s1 := s.(api := c.1);
    match c.0
    case Raise(e) => Para(s1, Falha(e))
    case Ok(data) =>
      var notas := GetOr(data, "nfCadastro", JList([]));
      if !Truthy(notas) then Para(s1, PaginaVazia)
      else
        match Itens(notas)
        case Raise(e) => Para(s1, Falha(e))
        case Ok(nfs) =>
          var registros := Normalizados(nfs);
          var s2 := s1.(rows := SrcUtilsRecords.LinhasAposLote(s.rows, registros, SrcUtilsRecords.TamanhoLotePadrao));
          match SrcUtilsRecords.RelatorioLote(s.rows, registros, SrcUtilsRecords.TamanhoLotePadrao)
          case Raise(e) => Para(s2, Falha(e))
          case Ok(_) =>
            match TotalPaginas(data)
            case Raise(e) => Para(s2, Falha(e))
            case Ok(total) => if pagina >= total then Para(s2, UltimaPagina) else Avanca(s2)
  }

  /**
   * A page with a note whose record carries an unsliceable key (None when
   * `compl` has no `cChaveNFe`) ends the listing with TypeError, and none
   * of the page's records is saved.
   */
  lemma PaginaChaveQuebrada(reply: (string, Json, nat) -> Outcome<Obj>, inicio: nat, q: Consulta, s: Mundo, pagina: int, nf: Json)
    requires var c := Chamar(reply, inicio, s.api, "ListarNF", ParamsListar(q, pagina));
             c.0.Ok? && var notas := GetOr(c.0.value, "nfCadastro", JList([]));
             Truthy(notas) && Itens(notas).Ok? && nf in Itens(notas).value
             && NormalizarNota(nf) != map[] && SrcUtilsRecords.QuebraValidacao(NormalizarNota(nf))
    ensures var c := Chamar(reply, inicio, s.api, "ListarNF", ParamsListar(q, pagina));
            PaginaA(reply, inicio, q, s, pagina) == Para(s.(api := c.1), Falha(TypeError))
            && PaginaA(reply, inicio, q, s, pagina).estado.rows == s.rows
  {
    var c := Chamar(reply, inicio, s.api, "ListarNF", ParamsListar(q, pagina));
    var nfs := Itens(GetOr(c.0.value, "nfCadastro", JList([]))).value;
    var i :| 0 <= i < |nfs| && nfs[i] == nf;
    NormalizadosMembros(nfs, NormalizarNota(nf));
    SrcUtilsRecords.TriagemComoEscritaRaiseIff(Normalizados(nfs));
  }

  function PassoA(reply: (string, Json, nat) -> Outcome<Obj>, inicio: nat, q: Consulta): (Mundo, int) -> Passo<Mundo>
  {
    (s: Mundo, pagina: int) => PaginaA(reply, inicio, q, s, pagina)
  }

  /** The listing never alters a stored row and never touches the files. */
  lemma ListarEstende(reply: (string, Json, nat) -> Outcome<Obj>, inicio: nat, q: Consulta, s: Mundo, limite: nat)
    ensures var l := Paginar(PassoA(reply, inicio, q), s, 1, limite);
            Estende(s.rows, l.estado.rows) && l.estado.fs == s.fs
  {
    var inv := (x: Mundo) => Estende(s.rows, x.rows) && x.fs == s.fs;
    forall x: Mundo, p: int | inv(x) ensures inv(PassoA(reply, inicio, q)(x, p).estado) {
      var st := PaginaA(reply, inicio, q, x, p);
      EstendeTransitiva(s.rows, x.rows, st.estado.rows);
    }
    PaginarPreserva(PassoA(reply, inicio, q), inv, s, 1, limite);
  }

  /** The first page is requested with `pagina = 1`, and an empty first page ends the listing there. */
  lemma ListarPrimeiraVazia(reply: (string, Json, nat) -> Outcome<Obj>, inicio: nat, q: Consulta, s: Mundo, limite: nat)
    requires limite >= 1
    requires var c := Chamar(reply, inicio, s.api, "ListarNF", ParamsListar(q, 1));
             c.0.Ok? && !Truthy(GetOr(c.0.value, "nfCadastro", JList([])))
    ensures var l := Paginar(PassoA(reply, inicio, q), s, 1, limite);
            l.paginas == [1] && l.motivo == Some(PaginaVazia) && l.estado.rows == s.rows
  {
  }

  /**
   * `listar_nfs(client, config, db_name)`, for at most `limite` pages: the
   * table, the client calls, the sleeps and the gate end as the page loop
   * over the client's replies says.
   */
  method ListarNfs(h: Host, g: SrcUtilsRate.UltimaChamada, t: Table, q: Consulta, limite: nat)
    modifies h, g, t
    ensures MundoDe(h, g, t) == Paginar(PassoA(h.clientReply, h.inicio, q), old(MundoDe(h, g, t)), 1, limite).estado
    ensures h.posts == old(h.posts)
  {
    Paginas(h, g, t, q, limite, PassoA(h.clientReply, h.inicio, q));
  }

  /** The `while True` of `listar_nfs` over the turns `passo` describes, requested from page 1. */
  method Paginas(h: Host, g: SrcUtilsRate.UltimaChamada, t: Table, q: Consulta, limite: nat, ghost passo: (Mundo, int) -> Passo<Mundo>)
    modifies h, g, t
    requires forall s: Mundo, p: int {:trigger PaginaA(h.clientReply, h.inicio, q, s, p)} :: passo(s, p) == PaginaA(h.clientReply, h.inicio, q, s, p)
    ensures MundoDe(h, g, t) == Paginar(passo, old(MundoDe(h, g, t)), 1, limite).estado
    ensures h.posts == old(h.posts)
  {
    ghost var final := Paginar(passo, MundoDe(h, g, t), 1, limite).estado;
    var pagina := 1;
    while pagina <= limite
      invariant 1 <= pagina <= limite + 1
      invariant Paginar(passo, MundoDe(h, g, t), pagina, limite + 1 - pagina).estado == final
      invariant h.posts == old(h.posts)
      decreases limite + 1 - pagina
    {
      var parar := ListarPagina(h, g, t, q, pagina, passo);
      if parar {
        return;
      }
      pagina := pagina + 1;
    }
  }

  /** The body of the loop for one page: true where `listar_nfs` breaks. */
  method ListarPagina(h: Host, g: SrcUtilsRate.UltimaChamada, t: Table, q: Consulta, pagina: int,
                      ghost passo: (Mundo, int) -> Passo<Mundo>)
    returns (parar: bool)
    modifies h, g, t
    requires forall s: Mundo, p: int {:trigger PaginaA(h.clientReply, h.inicio, q, s, p)} :: passo(s, p) == PaginaA(h.clientReply, h.inicio, q, s, p)
    ensures var st := passo(old(MundoDe(h, g, t)), pagina);
            MundoDe(h, g, t) == st.estado && (parar <==> st.Para?)
    ensures h.posts == old(h.posts)
  {
    ghost var st := PaginaA(h.clientReply, h.inicio, q, MundoDe(h, g, t), pagina);
    var payload := ParamsListar(q, pagina);
    var data := CallApiComRetentativa(h, g, "ListarNF", payload);
    if data.Raise? {
      return true;
    }
    var notas := GetOr(data.value, "nfCadastro", JList([]));
    if !Truthy(notas) {
      return true;
    }
    var nfs := Itens(notas);
    if nfs.Raise? {
      return true;
    }
    var registros := Normalizados(nfs.value);
    var rel := SrcUtilsRecords.SalvarVariasNotas(t, registros, SrcUtilsRecords.TamanhoLotePadrao);
    if rel.Raise? {
      return true;
    }
    var total := TotalPaginas(data.value);
    if total.Raise? {
      return true;
    }
    if pagina >= total.value {
      return true;
    }
    return false;
  }

  // ---------------------------------------------------------------- baixar_xml_individual

  /** `gerar_xml_path`'s default `base_dir`. */
  const Resultado: Path := ["resultado"]

  /**
   * `baixar_xml_individual(session, client, row, semaphore, db_name)` on
   * the world `m`: resolve the path, create its folder, fetch `ObterNfe`,
   * write the unescaped `cXmlNfe` (an empty file when it is absent), then
   * mark the row.  A failure at any step ends the download there.
   */
  function BaixarXml(reply: (string, Json, nat) -> Outcome<Obj>, inicio: nat, unescape: string -> string,
                     m: Mundo, p: NotaPendente): (r: Mundo)
  {
    match SrcUtilsResolver.XmlPath(m.fs, p.chave, p.dEmi, p.nNF, Resultado)
    case Raise(_) => m
    case Ok(lugar) =>
      if MkdirFalha(m.fs, lugar.0) then m
      else
        var fs1 := Fs.Mkdir(m.fs, lugar.0);
        var c := Chamar(reply, inicio, m.api, "ObterNfe", ParamsObter(p.nIdNF));
        var m1 := Mundo(fs1, m.rows, c.1);
        match c.0
        case Raise(_) => m1
        case Ok(data) =>
          match TextoXml(GetOr(data, "cXmlNfe", JStr("")))
          case Raise(_) => m1
          case Ok(texto) =>
            if WriteFalha(fs1, lugar.1) then m1
            else
              var fs2 := WriteFile(fs1, lugar.1, Utf8(unescape(texto)));
              Mundo(fs2, SrcUtilsStatus.StatusXmlApos(m.rows, fs2, p.chave, lugar.1, false), c.1)
  }

  /**
   * Whether the download of `p` writes its file: the path resolves, the
   * folder can be made, the call succeeds, `cXmlNfe` is text and
   * `write_text` does not raise.
   */
  predicate Escreve(reply: (string, Json, nat) -> Outcome<Obj>, inicio: nat, m: Mundo, p: NotaPendente)
  {
    var lugar := SrcUtilsResolver.XmlPath(m.fs, p.chave, p.dEmi, p.nNF, Resultado);
    lugar.Ok? && !MkdirFalha(m.fs, lugar.value.0)
    && var c := Chamar(reply, inicio, m.api, "ObterNfe", ParamsObter(p.nIdNF));
       c.0.Ok? && TextoXml(GetOr(c.0.value, "cXmlNfe", JStr(""))).Ok?
       && !WriteFalha(Fs.Mkdir(m.fs, lugar.value.0), lugar.value.1)
  }

  /**
   * The store is updated only after the file is written: when the download
   * stops earlier the table is as it was; when it writes, the file holds the
   * unescaped XML and the note's row, and only it, is marked as downloaded
   * at that path, not empty.
   */
  lemma BaixarXmlOrdem(reply: (string, Json, nat) -> Outcome<Obj>, inicio: nat, unescape: string -> string,
                       m: Mundo, p: NotaPendente)
    ensures var r := BaixarXml(reply, inicio, unescape, m, p);
            !Escreve(reply, inicio, m, p) ==> r.rows == m.rows
    ensures var r := BaixarXml(reply, inicio, unescape, m, p);
            Escreve(reply, inicio, m, p) ==>
              var lugar := SrcUtilsResolver.XmlPath(m.fs, p.chave, p.dEmi, p.nNF, Resultado).value;
              var c := Chamar(reply, inicio, m.api, "ObterNfe", ParamsObter(p.nIdNF));
              var texto := GetOr(c.0.value, "cXmlNfe", JStr("")).s;
              lugar.1 in r.fs.files && r.fs.files[lugar.1] == Utf8(unescape(texto))
              && r.rows.Keys == m.rows.Keys
              && (forall k | k in m.rows && k != p.chave :: r.rows[k] == m.rows[k])
              && (p.chave != [] && p.chave in m.rows && PathStr(lugar.1) != [] ==>
                    r.rows[p.chave].xmlBaixado && r.rows[p.chave].caminhoArquivo == Some(PathStr(lugar.1))
                    && !r.rows[p.chave].xmlVazio)
  {
    if Escreve(reply, inicio, m, p) {
      var lugar := SrcUtilsResolver.XmlPath(m.fs, p.chave, p.dEmi, p.nNF, Resultado).value;
      var c := Chamar(reply, inicio, m.api, "ObterNfe", ParamsObter(p.nIdNF));
      var texto := GetOr(c.0.value, "cXmlNfe", JStr("")).s;
      var fs2 := WriteFile(Fs.Mkdir(m.fs, lugar.0), lugar.1, Utf8(unescape(texto)));
      assert Exists(fs2, lugar.1);
    }
  }

  /** A note whose reply has no `cXmlNfe` is written as an empty file. */
  lemma BaixarXmlSemConteudo(reply: (string, Json, nat) -> Outcome<Obj>, inicio: nat, unescape: string -> string,
                             m: Mundo, p: NotaPendente)
    requires SrcUtilsResolver.XmlPath(m.fs, p.chave, p.dEmi, p.nNF, Resultado).Ok?
    requires var lugar := SrcUtilsResolver.XmlPath(m.fs, p.chave, p.dEmi, p.nNF, Resultado).value;
             var c := Chamar(reply, inicio, m.api, "ObterNfe", ParamsObter(p.nIdNF));
             c.0.Ok? && "cXmlNfe" !in c.0.value
    requires unescape("") == ""
    requires var lugar := SrcUtilsResolver.XmlPath(m.fs, p.chave, p.dEmi, p.nNF, Resultado).value;
             !MkdirFalha(m.fs, lugar.0) && !WriteFalha(Fs.Mkdir(m.fs, lugar.0), lugar.1)
    ensures var lugar := SrcUtilsResolver.XmlPath(m.fs, p.chave, p.dEmi, p.nNF, Resultado).value;
            var r := BaixarXml(reply, inicio, unescape, m, p);
            lugar.1 in r.fs.files && r.fs.files[lugar.1] == []
  {
  }

  /**
   * The folder comes first: when `mkdir` raises nothing else happens, not
   * even the API call; otherwise the folder exists afterwards, whatever
   * happened next.
   */
  lemma BaixarXmlPasta(reply: (string, Json, nat) -> Outcome<Obj>, inicio: nat, unescape: string -> string,
                       m: Mundo, p: NotaPendente)
    requires SrcUtilsResolver.XmlPath(m.fs, p.chave, p.dEmi, p.nNF, Resultado).Ok?
    ensures var lugar := SrcUtilsResolver.XmlPath(m.fs, p.chave, p.dEmi, p.nNF, Resultado).value;
            var r := BaixarXml(reply, inicio, unescape, m, p);
            (MkdirFalha(m.fs, lugar.0) ==> r == m)
            && (!MkdirFalha(m.fs, lugar.0) && lugar.0 != [] ==> IsDir(r.fs, lugar.0))
  {
  }

  method BaixarXmlIndividual(h: Host, g: SrcUtilsRate.UltimaChamada, t: Table, p: NotaPendente)
    modifies h, g, t
    ensures MundoDe(h, g, t) == BaixarXml(h.clientReply, h.inicio, h.unescape, old(MundoDe(h, g, t)), p)
    ensures h.posts == old(h.posts)
  {
    var lugar := SrcUtilsResolver.GerarXmlPath(h.fs, p.chave, p.dEmi, p.nNF, Resultado);
    if lugar.Raise? {
      return;
    }
    var pasta := lugar.value.0;
    var caminho := lugar.value.1;
    var criada := h.Mkdir(pasta);
    if !criada {
      return;
    }
    var rebaixado := Exists(h.fs, caminho);
    var data := CallApiComRetentativa(h, g, "ObterNfe", ParamsObter(p.nIdNF));
    if data.Raise? {
      return;
    }
    var texto := TextoXml(GetOr(data.value, "cXmlNfe", JStr("")));
    if texto.Raise? {
      return;
    }
    var xmlStr := h.unescape(texto.value);
    var escrito := h.WriteText(caminho, xmlStr);
    if !escrito {
      return;
    }
    SrcUtilsStatus.AtualizarStatusXml(t, h.fs, p.chave, caminho, xmlStr, rebaixado, false);
  }

  // ---------------------------------------------------------------- baixar_xmls

  /** The downloads of the notes of `ordem`, one after the other. */
  function BaixarTodas(reply: (string, Json, nat) -> Outcome<Obj>, inicio: nat, unescape: string -> string,
                       m: Mundo, ordem: seq<NotaPendente>): Mundo
    decreases |ordem|
  {
    if ordem == [] then m
    else BaixarXml(reply, inicio, unescape, BaixarTodas(reply, inicio, unescape, m, ordem[..|ordem| - 1]), ordem[|ordem| - 1])
  }

  /** A download complete or not changes no row but its note's, and no key. */
  lemma BaixarXmlSoSuaLinha(reply: (string, Json, nat) -> Outcome<Obj>, inicio: nat, unescape: string -> string,
                            m: Mundo, p: NotaPendente)
    ensures var r := BaixarXml(reply, inicio, unescape, m, p);
            r.rows.Keys == m.rows.Keys && forall k | k in m.rows && k != p.chave :: r.rows[k] == m.rows[k]
  {
    BaixarXmlOrdem(reply, inicio, unescape, m, p);
  }

  /** The rows of notes outside `ordem` are left as they were, and so is the set of keys. */
  lemma {:induction false} BaixarTodasPreserva(reply: (string, Json, nat) -> Outcome<Obj>, inicio: nat,
                                               unescape: string -> string, m: Mundo, ordem: seq<NotaPendente>, k: string)
    requires k in m.rows
    requires forall i | 0 <= i < |ordem| :: ordem[i].chave != k
    ensures var r := BaixarTodas(reply, inicio, unescape, m, ordem);
            r.rows.Keys == m.rows.Keys && r.rows[k] == m.rows[k]
    decreases |ordem|
  {
    if ordem != [] {
      var antes := ordem[..|ordem| - 1];
      BaixarTodasPreserva(reply, inicio, unescape, m, antes, k);
      BaixarXmlSoSuaLinha(reply, inicio, unescape, BaixarTodas(reply, inicio, unescape, m, antes), ordem[|ordem| - 1]);
    }
  }

  /**
   * `baixar_xmls(client, db_name)`: the pending rows are read once, then
   * each is downloaded in turn, in some order `ordem` that lists each of
   * them exactly once.
   */
  method BaixarXmls(h: Host, g: SrcUtilsRate.UltimaChamada, t: Table) returns (ghost ordem: seq<NotaPendente>)
    modifies h, g, t
    ensures forall p :: p in ordem <==> p in Pendentes(old(t.rows))
    ensures |ordem| == |Pendentes(old(t.rows))|
    ensures MundoDe(h, g, t) == BaixarTodas(h.clientReply, h.inicio, h.unescape, old(MundoDe(h, g, t)), ordem)
    ensures h.posts == old(h.posts)
  {
    var rows := Pendentes(t.rows);
    ghost var m0 := MundoDe(h, g, t);
    var restantes := rows;
    ordem := [];
    while restantes != {}
      invariant restantes <= rows
      invariant forall p :: p in ordem <==> p in rows && p !in restantes
      invariant |ordem| + |restantes| == |rows|
      invariant MundoDe(h, g, t) == BaixarTodas(h.clientReply, h.inicio, h.unescape, m0, ordem)
      invariant h.posts == old(h.posts)
      decreases |restantes|
    {
      var p :| p in restantes;
      BaixarXmlIndividual(h, g, t, p);
      assert (ordem + [p])[..|ordem|] == ordem;
      ordem := ordem + [p];
      restantes := restantes - {p};
    }
  }
}
