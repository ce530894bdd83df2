/**
 * `respeitar_limite_requisicoes` of `src/utils.py`: a minimum interval
 * between calls, kept in a one-element list the caller may pass in.  With
 * the default argument every call gets a fresh list holding 0, so nothing
 * is remembered between calls.  Times are milliseconds.
 */
module SrcUtilsRate {
  import opened Wrappers
  import opened Host

  /** The one-element list `ultima_chamada`: the time of the last call. */
  class UltimaChamada {
    var instante: int

    constructor (inicial: int)
      ensures instante == inicial
    {
      instante := inicial;
    }
  }

  /** The default `min_intervalo` of 0.25 s. */
  const MinIntervaloPadrao: nat := 250

  /** The wait before a call at `agora` after a call at `ultima`: what is left of the interval. */
  function Espera(agora: int, ultima: int, minIntervalo: nat): (w: nat)
    ensures agora - ultima < minIntervalo ==> w > 0 && agora + w == ultima + minIntervalo
    ensures agora - ultima >= minIntervalo ==> w == 0
  {
    if agora - ultima < minIntervalo then minIntervalo - (agora - ultima) else 0
  }

  /**
   * `respeitar_limite_requisicoes(min_intervalo, ultima_chamada)`.  With a
   * list, the call returns at least `min_intervalo` after the time the list
   * held, and the list then holds the time of return.  Without one, the wait
   * depends only on the clock.
   */
  method RespeitarLimiteRequisicoes(h: Host, minIntervalo: nat, ultimaChamada: Option<UltimaChamada>)
    modifies h, if ultimaChamada.Some? then {ultimaChamada.value} else {}
    ensures var ultima := if ultimaChamada.Some? then old(ultimaChamada.value.instante) else 0;
            var w := Espera(old(h.Now()), ultima, minIntervalo);
            h.Now() == old(h.Now()) + w && h.sleeps == old(h.sleeps) + (if w > 0 then [w] else [])
    ensures ultimaChamada.Some? ==>
              ultimaChamada.value.instante == h.Now() && h.Now() >= old(ultimaChamada.value.instante) + minIntervalo
    ensures ultimaChamada.None? && old(h.Now()) >= minIntervalo ==> h.Now() == old(h.Now()) && h.sleeps == old(h.sleeps)
    ensures h.fs == old(h.fs) && h.posts == old(h.posts) && h.clientCalls == old(h.clientCalls)
  {
    var celula: UltimaChamada;
    if ultimaChamada.None? {
      celula := new UltimaChamada(0);
    } else {
      celula := ultimaChamada.value;
    }
    var tempoAtual := h.Now();
    var tempoDecorrido := tempoAtual - celula.instante;
    if tempoDecorrido < minIntervalo {
      var tempoEspera := minIntervalo - tempoDecorrido;
      h.Sleep(tempoEspera);
    }
    celula.instante := h.Now();
  }
}
