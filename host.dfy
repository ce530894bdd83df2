/**
 * Everything outside the program that the pipeline touches besides its
 * database: the file system, a monotonic clock in milliseconds that moves
 * only while the program sleeps, and the HTTP endpoint.  The endpoint is a
 * fixed function of the request and of how many requests came before it,
 * so any sequence of replies, failures included, can be described.
 */
module Host {
  import opened Wrappers
  import opened Text
  import opened Json
  import opened Fs

  /** A POST: the URL and the JSON body. */
  datatype Request = Request(url: string, payload: Json)

  /** What a POST can come back with. */
  datatype Reply =
    | Response(status: int, body: Option<Json>)   // body None: the body is not JSON
    | ConnectionFailed                           // refused, reset, DNS failure, ...
    | TimedOut

  /** The total of some waits. */
  function Soma(ws: seq<nat>): nat
  {
    if ws == [] then 0 else Soma(ws[..|ws| - 1]) + ws[|ws| - 1]
  }

  lemma SomaSnoc(ws: seq<nat>, w: nat)
    ensures Soma(ws + [w]) == Soma(ws) + w
  {
    assert (ws + [w])[..|ws|] == ws;
  }

  /** `n` copies of `x`. */
  function Repetir<T>(x: T, n: nat): (s: seq<T>)
    ensures |s| == n && forall i | 0 <= i < n :: s[i] == x
  {
    if n == 0 then [] else Repetir(x, n - 1) + [x]
  }

  /** One more repetition appended after a prefix. */
  lemma RepetirSnoc<T>(pre: seq<T>, x: T, k: nat)
    ensures pre + Repetir(x, k) + [x] == pre + Repetir(x, k + 1)
  {
    assert Repetir(x, k + 1) == Repetir(x, k) + [x];
    assert pre + Repetir(x, k) + [x] == pre + (Repetir(x, k) + [x]);
  }

  /** `2 ** n`. */
  function Pow2(n: nat): (p: nat)
    ensures p >= 1
  {
    if n == 0 then 1 else 2 * Pow2(n - 1)
  }

  class Host {
    var fs: FileSystem
    /** `time.monotonic()` when the program starts, in milliseconds. */
    const inicio: nat
    /** Every sleep, in milliseconds, in order. */
    var sleeps: seq<nat>
    /** Every POST sent, in order. */
    var posts: seq<Request>
    /** The reply to a request that is the n-th POST (from 0). */
    const respond: (Request, nat) -> Reply
    /** Calls made to an API client that is passed in as a parameter. */
    var clientCalls: seq<(string, Json)>
    /** What that client's `call_api(metodo, params)` does on its n-th call (from 0). */
    const clientReply: (string, Json, nat) -> Outcome<Obj>
    /** `html.unescape`, left abstract. */
    const unescape: string -> string

    constructor (fs0: FileSystem, now0: nat, respond0: (Request, nat) -> Reply,
                 clientReply0: (string, Json, nat) -> Outcome<Obj>, unescape0: string -> string)
      ensures fs == fs0 && inicio == now0 && sleeps == [] && posts == [] && clientCalls == []
      ensures respond == respond0 && clientReply == clientReply0 && unescape == unescape0
    {
      fs := fs0;
      inicio := now0;
      sleeps := [];
      posts := [];
      respond := respond0;
      clientCalls := [];
      clientReply := clientReply0;
      unescape := unescape0;
    }

    /** `time.monotonic()`: the clock moves only while the program sleeps. */
    function Now(): nat
      reads this
    {
      inicio + Soma(sleeps)
    }

    /** `time.sleep(ms / 1000)` or `await asyncio.sleep(ms / 1000)`. */
    method Sleep(ms: nat)
      modifies this
      ensures sleeps == old(sleeps) + [ms] && Now() == old(Now()) + ms
      ensures fs == old(fs) && posts == old(posts) && clientCalls == old(clientCalls)
    {
      SomaSnoc(sleeps, ms);
      sleeps := sleeps + [ms];
    }

    /** One HTTP POST. */
    method Post(req: Request) returns (reply: Reply)
      modifies this
      ensures posts == old(posts) + [req] && reply == respond(req, |old(posts)|)
      ensures fs == old(fs) && sleeps == old(sleeps) && clientCalls == old(clientCalls)
    {
      reply := respond(req, |posts|);
      posts := posts + [req];
    }

    /** `await client.call_api(session, metodo, params)` on a client given as a parameter. */
    method ClientCall(metodo: string, params: Json) returns (out: Outcome<Obj>)
      modifies this
      ensures clientCalls == old(clientCalls) + [(metodo, params)]
      ensures out == clientReply(metodo, params, |old(clientCalls)|)
      ensures fs == old(fs) && sleeps == old(sleeps) && posts == old(posts)
    {
      out := clientReply(metodo, params, |clientCalls|);
      clientCalls := clientCalls + [(metodo, params)];
    }

    /** `path.mkdir(parents=True, exist_ok=True)`; `ok` is false where it raises, and then nothing changes. */
    method Mkdir(p: Path) returns (ok: bool)
      modifies this
      ensures ok <==> !MkdirFalha(old(fs), p)
      ensures fs == if ok then Fs.Mkdir(old(fs), p) else old(fs)
      ensures sleeps == old(sleeps) && posts == old(posts) && clientCalls == old(clientCalls)
    {
      if MkdirFalha(fs, p) {
        return false;
      }
      fs := Fs.Mkdir(fs, p);
      return true;
    }

    /** `path.write_text(text, encoding='utf-8')`; `ok` is false where it raises, and then nothing changes. */
    method WriteText(p: Path, text: string) returns (ok: bool)
      modifies this
      ensures ok <==> !WriteFalha(old(fs), p)
      ensures fs == if ok then WriteFile(old(fs), p, Utf8(text)) else old(fs)
      ensures sleeps == old(sleeps) && posts == old(posts) && clientCalls == old(clientCalls)
    {
      if WriteFalha(fs, p) {
        return false;
      }
      fs := WriteFile(fs, p, Utf8(text));
      return true;
    }
  }
}
