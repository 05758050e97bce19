/** `slice::chunks` and its inverse, flattening. */
module Batching {
  import opened Arith

  /** The batches glued back together in order. */
  function Flatten<T>(bs: seq<seq<T>>): seq<T>
    decreases |bs|
  {
    if |bs| == 0 then [] else bs[0] + Flatten(bs[1..])
  }

  lemma {:induction false} FlattenAppend<T>(a: seq<seq<T>>, b: seq<seq<T>>)
    ensures Flatten(a + b) == Flatten(a) + Flatten(b)
    decreases |a|
  {
    if |a| == 0 {
      assert a + b == b;
    } else {
      assert (a + b)[1..] == a[1..] + b;
      FlattenAppend(a[1..], b);
    }
  }

  /** Well-formed batching of some sequence into batches of size `n`: no batch
      is empty and every batch but the last holds exactly `n` elements. */
  predicate ChunkShaped<T>(bs: seq<seq<T>>, n: nat) {
    && (forall i :: 0 <= i < |bs| ==> 1 <= |bs[i]| <= n)
    && (forall i :: 0 <= i < |bs| - 1 ==> |bs[i]| == n)
  }

  lemma DivSmall(k: nat, n: nat)
    requires n >= 1 && k < n
    ensures k / n == 0
  {
  }

  /** `xs.chunks(n)`: consecutive slices of `n` elements, the last one
      possibly shorter. The source requires `n >= 1` (`chunks` panics on 0). */
  function Chunks<T>(xs: seq<T>, n: nat): (bs: seq<seq<T>>)
    requires n >= 1
    ensures ChunkShaped(bs, n)
    ensures Flatten(bs) == xs
    ensures |bs| == (|xs| + n - 1) / n
    decreases |xs|
  {
    if |xs| == 0 then
      DivSmall(n - 1, n);
      []
    else if |xs| <= n then
      assert Flatten([xs]) == xs + Flatten([xs][1..]);
      DivSmall(|xs| - 1, n);
      DivStep(|xs| - 1, n);
      [xs]
    else
      var rest := Chunks(xs[n..], n);
      ChunksCons(xs, n, rest);
      [xs[..n]] + rest
  }

  /** A full first batch in front of a batching of the remainder. */
  lemma ChunksCons<T>(xs: seq<T>, n: nat, rest: seq<seq<T>>)
    requires n >= 1 && |xs| > n
    requires ChunkShaped(rest, n) && Flatten(rest) == xs[n..]
    requires |rest| == (|xs[n..]| + n - 1) / n
    ensures ChunkShaped([xs[..n]] + rest, n)
    ensures Flatten([xs[..n]] + rest) == xs
    ensures |[xs[..n]] + rest| == (|xs| + n - 1) / n
  {
    var bs := [xs[..n]] + rest;
    assert bs[1..] == rest;
    assert xs[..n] + xs[n..] == xs;
    DivStep(|xs[n..]| + n - 1, n);
  }

  /** The batching is unique: any shaped batching that flattens to `xs` is
      `Chunks(xs, n)`. */
  lemma {:induction false} ChunksUnique<T>(xs: seq<T>, n: nat, bs: seq<seq<T>>)
    requires n >= 1
    requires ChunkShaped(bs, n) && Flatten(bs) == xs
    ensures bs == Chunks(xs, n)
    decreases |bs|
  {
    if |bs| == 0 {
    } else if |bs| == 1 {
      assert Flatten(bs) == bs[0] + Flatten(bs[1..]);
      assert bs[0] == xs;
    } else {
      assert Flatten(bs) == bs[0] + Flatten(bs[1..]);
      assert |bs[0]| == n;
      assert |Flatten(bs[1..])| > 0 by {
        assert Flatten(bs[1..]) == bs[1] + Flatten(bs[2..]);
      }
      assert xs[..n] == bs[0] && xs[n..] == Flatten(bs[1..]);
      assert ChunkShaped(bs[1..], n);
      ChunksUnique(xs[n..], n, bs[1..]);
    }
  }
}
