/**
 * The batches `for i in range(0, len(s), size): lote = s[i:i + size]`
 * that the pipeline's bulk updates walk through.
 */
module Batches {
  /** `s[i:i + size]`: Python clips the end at `len(s)`. */
  function Lote<T>(s: seq<T>, i: nat, size: nat): (b: seq<T>)
    requires i <= |s|
    ensures |b| <= size
    ensures i < |s| && size > 0 ==> |b| > 0
  {
    s[i..if i + size <= |s| then i + size else |s|]
  }

  /** Where the batch starting at `i` ends. */
  function Fim(n: nat, i: nat, size: nat): (f: nat)
    requires i <= n
    ensures i <= f <= n
  {
    if i + size <= n then i + size else n
  }

  /** The batches from the start `i` on, one per step of `range(i, len(s), size)`. */
  function Lotes<T>(s: seq<T>, size: nat, i: nat): (bs: seq<seq<T>>)
    requires size > 0 && i <= |s|
    decreases |s| - i
  {
    if i == |s| then [] else [Lote(s, i, size)] + Lotes(s, size, Fim(|s|, i, size))
  }

  function Concat<T>(bs: seq<seq<T>>): seq<T>
  {
    if bs == [] then [] else bs[0] + Concat(bs[1..])
  }

  /** The batches, laid end to end, are the list from `i` on: every element once, in order. */
  lemma {:induction false} LotesCover<T>(s: seq<T>, size: nat, i: nat)
    requires size > 0 && i <= |s|
    ensures Concat(Lotes(s, size, i)) == s[i..]
    decreases |s| - i
  {
    if i < |s| {
      var f := Fim(|s|, i, size);
      LotesCover(s, size, f);
      var bs := Lotes(s, size, i);
      assert bs[1..] == Lotes(s, size, f);
      assert s[i..] == s[i..f] + s[f..];
    }
  }

  /** Every batch holds between 1 and `size` elements. */
  lemma {:induction false} LotesSizes<T>(s: seq<T>, size: nat, i: nat)
    requires size > 0 && i <= |s|
    ensures forall j | 0 <= j < |Lotes(s, size, i)| :: 0 < |Lotes(s, size, i)[j]| <= size
    decreases |s| - i
  {
    if i < |s| {
      LotesSizes(s, size, Fim(|s|, i, size));
    }
  }

  /** The `j`-th batch starts at `i + j * size`. */
  lemma {:induction false} LotesIndex<T>(s: seq<T>, size: nat, i: nat, j: nat)
    requires size > 0 && i <= |s|
    requires j < |Lotes(s, size, i)|
    ensures i + j * size < |s|
    ensures Lotes(s, size, i)[j] == Lote(s, i + j * size, size)
    decreases j
  {
    if j > 0 {
      var f := Fim(|s|, i, size);
      assert Lotes(s, size, i)[j] == Lotes(s, size, f)[j - 1];
      LotesIndex(s, size, f, j - 1);
      assert f == i + size;
      assert f + (j - 1) * size == i + j * size;
    }
  }
}
