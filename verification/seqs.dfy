/** Order-preserving filtering of sequences, the `Array.prototype.filter`
    and query-by-predicate shape several handlers share. */
module Seqs {
  /** `xs.filter(keep)`: the elements `keep` accepts, in their order and
      with their repetitions. */
  function Keep<T(==,!new)>(xs: seq<T>, keep: T -> bool): (r: seq<T>)
    ensures |r| <= |xs|
    ensures forall x :: x in r <==> x in xs && keep(x)
  {
    if |xs| == 0 then []
    else
      assert forall x :: x in xs <==> x == xs[0] || x in xs[1..];
      (if keep(xs[0]) then [xs[0]] else []) + Keep(xs[1..], keep)
  }

  /** Filtering distributes over concatenation, so a filter keeps the order
      and the repetitions of what it accepts. */
  lemma {:induction false} KeepConcat<T(!new)>(a: seq<T>, b: seq<T>, keep: T -> bool)
    ensures Keep(a + b, keep) == Keep(a, keep) + Keep(b, keep)
  {
    if |a| > 0 {
      assert (a + b)[1..] == a[1..] + b;
      KeepConcat(a[1..], b, keep);
    } else {
      assert a + b == b;
    }
  }

  /** A one-element sequence is kept exactly when its element is accepted. */
  lemma KeepSingle<T(!new)>(x: T, keep: T -> bool)
    ensures Keep([x], keep) == if keep(x) then [x] else []
  {
    assert [x][1..] == [];
  }

  /** Two filters commute. */
  lemma {:induction false} KeepCommute<T(!new)>(xs: seq<T>, p: T -> bool, q: T -> bool)
    ensures Keep(Keep(xs, p), q) == Keep(Keep(xs, q), p)
  {
    if |xs| > 0 {
      var h, t := [xs[0]], xs[1..];
      assert xs == h + t;
      KeepConcat(h, t, p);
      KeepConcat(h, t, q);
      KeepConcat(Keep(h, p), Keep(t, p), q);
      KeepConcat(Keep(h, q), Keep(t, q), p);
      KeepSingle(xs[0], p);
      KeepSingle(xs[0], q);
      KeepCommute(t, p, q);
    }
  }
}
