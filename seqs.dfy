/** Sequence operations behind the app's `Array.prototype.filter` expressions. */
module Seqs {

  /** `s.filter(p)`: the elements of `s` that satisfy `p`, in their original order. */
  function Filter<T(!new)>(s: seq<T>, p: T -> bool): (r: seq<T>)
    ensures |r| <= |s|
    ensures forall x :: x in r <==> x in s && p(x)
  {
    if s == [] then []
    else if p(s[0]) then [s[0]] + Filter(s[1..], p)
    else Filter(s[1..], p)
  }

  /** `idx` lists, in strictly increasing order, the positions of `s` that make up `r`. */
  ghost predicate Picks<T(!new)>(r: seq<T>, s: seq<T>, idx: seq<int>)
  {
    && |idx| == |r|
    && (forall k :: 0 <= k < |idx| ==> 0 <= idx[k] < |s| && r[k] == s[idx[k]])
    && (forall k, l :: 0 <= k < l < |idx| ==> idx[k] < idx[l])
  }

  /** Every position in `idx`, one further on. */
  function Shift(idx: seq<int>): (r: seq<int>)
    ensures |r| == |idx|
    ensures forall k :: 0 <= k < |idx| ==> r[k] == idx[k] + 1
  {
    seq(|idx|, k requires 0 <= k < |idx| => idx[k] + 1)
  }

  /** Positions picked from the tail of `s` are picked from `s` once shifted by one. */
  lemma PicksFromTail<T(!new)>(r: seq<T>, s: seq<T>, idx: seq<int>)
    requires s != [] && Picks(r, s[1..], idx)
    ensures Picks(r, s, Shift(idx))
    ensures Picks([s[0]] + r, s, [0] + Shift(idx))
  {
    var sh := Shift(idx);
    forall k | 0 <= k < |sh| ensures 0 <= sh[k] < |s| && r[k] == s[sh[k]] {
      assert s[1..][idx[k]] == s[idx[k] + 1];
    }
  }

  /** `Filter` keeps exactly the positions whose element satisfies `p`, and keeps them in order. */
  lemma {:induction false} FilterPicks<T(!new)>(s: seq<T>, p: T -> bool) returns (idx: seq<int>)
    ensures Picks(Filter(s, p), s, idx)
    ensures forall i :: 0 <= i < |s| ==> (i in idx <==> p(s[i]))
  {
    if s == [] {
      idx := [];
    } else {
      var tail := FilterPicks(s[1..], p);
      PicksFromTail(Filter(s[1..], p), s, tail);
      var sh := Shift(tail);
      idx := if p(s[0]) then [0] + sh else sh;
      forall i | 0 <= i < |s| ensures i in idx <==> p(s[i]) {
        if i > 0 {
          assert s[i] == s[1..][i - 1];
          assert i in sh <==> i - 1 in tail by {
            if i - 1 in tail {
              var k :| 0 <= k < |tail| && tail[k] == i - 1;
              assert sh[k] == i;
            }
            if i in sh {
              var k :| 0 <= k < |sh| && sh[k] == i;
              assert tail[k] == i - 1;
            }
          }
        }
      }
    }
  }

  /** Filtering with a predicate that every element satisfies changes nothing. */
  lemma {:induction false} FilterKeepsAll<T(!new)>(s: seq<T>, p: T -> bool)
    requires forall x :: x in s ==> p(x)
    ensures Filter(s, p) == s
  {
    if s != [] {
      FilterKeepsAll(s[1..], p);
    }
  }

  /** Filtering twice with the same predicate is filtering once. */
  lemma FilterIdempotent<T(!new)>(s: seq<T>, p: T -> bool)
    ensures Filter(Filter(s, p), p) == Filter(s, p)
  {
    FilterKeepsAll(Filter(s, p), p);
  }

  /** Filtering distributes over concatenation. */
  lemma {:induction false} FilterAppend<T(!new)>(a: seq<T>, b: seq<T>, p: T -> bool)
    ensures Filter(a + b, p) == Filter(a, p) + Filter(b, p)
  {
    if a == [] {
      assert a + b == b;
    } else {
      assert (a + b)[0] == a[0];
      assert (a + b)[1..] == a[1..] + b;
      FilterAppend(a[1..], b, p);
    }
  }

  /** Two predicates that agree on every element of `s` select the same elements. */
  lemma {:induction false} FilterCongruent<T(!new)>(s: seq<T>, p: T -> bool, q: T -> bool)
    requires forall x :: x in s ==> p(x) == q(x)
    ensures Filter(s, p) == Filter(s, q)
  {
    if s != [] {
      FilterCongruent(s[1..], p, q);
    }
  }
}
