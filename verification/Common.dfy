/** What several parts of the model share. */
module Common {
  datatype Option<+T> = None | Some(value: T)

  /** The parts of a chunked text, joined. */
  function Flatten<T>(parts: seq<seq<T>>): seq<T> {
    if parts == [] then [] else Flatten(parts[..|parts| - 1]) + parts[|parts| - 1]
  }

  lemma {:induction false} FlattenConcat<T>(a: seq<seq<T>>, b: seq<seq<T>>)
    ensures Flatten(a + b) == Flatten(a) + Flatten(b)
  {
    if b == [] {
      assert a + b == a;
    } else {
      assert (a + b)[..|a + b| - 1] == a + b[..|b| - 1];
      FlattenConcat(a, b[..|b| - 1]);
    }
  }

  lemma FlattenOne<T>(part: seq<T>)
    ensures Flatten([part]) == part
  {
    assert [part][..0] == [];
  }

  /** Writes elements over others, as `memcpy` does and, what is written having been taken
      before, `memmove`. */
  method MemCpy<T>(dst: array<T>, at: nat, src: seq<T>)
    requires at + |src| <= dst.Length
    modifies dst
    ensures dst[..] == old(dst[..at]) + src + old(dst[at + |src|..])
  {
    for i := 0 to |src|
      invariant dst[..] == old(dst[..at]) + src[..i] + old(dst[at + i..])
    {
      dst[at + i] := src[i];
    }
  }
}

/** Sums of what each thread has. */
module Sums {
  function Sum(xs: seq<nat>): nat {
    if xs == [] then 0 else Sum(xs[..|xs| - 1]) + xs[|xs| - 1]
  }

  /** One entry changes from `xs` to `ys`, the others grow by `d` at most. */
  lemma {:induction false} SumChange(xs: seq<nat>, ys: seq<nat>, tid: nat, d: nat)
    requires |xs| == |ys| && forall i | 0 <= i < |xs| && i != tid :: ys[i] <= xs[i] + d
    ensures Sum(ys) + (if tid < |xs| then xs[tid] else 0) <= Sum(xs) + (if tid < |xs| then ys[tid] else 0) + d * |xs|
  {
    if xs != [] {
      var n := |xs| - 1;
      SumChange(xs[..n], ys[..n], tid, d);
      assert d * (n + 1) == d * n + d;
    }
  }

  lemma {:induction false} SumBounded(xs: seq<nat>, bound: nat)
    requires forall i | 0 <= i < |xs| :: xs[i] <= bound
    ensures Sum(xs) <= bound * |xs|
  {
    if xs != [] {
      SumBounded(xs[..|xs| - 1], bound);
      assert bound * |xs| == bound * (|xs| - 1) + bound;
    }
  }
}
