/**
 Helpers over finite collections shared by the queue and cache models: listing the
 elements of a set in an order the caller cannot rely on (the model of ranging over a
 Go map), counting matches in a sequence, and the subsequence relation.
 */
module Collections {

  /** No element occurs twice. */
  ghost predicate Distinct<X>(s: seq<X>) {
    forall i, j :: 0 <= i < j < |s| ==> s[i] != s[j]
  }

  /** `a` is `b` with some elements dropped and the rest in their original order. */
  ghost predicate IsSubsequence<X>(a: seq<X>, b: seq<X>)
    decreases |b|
  {
    if |a| == 0 then true
    else if |b| == 0 then false
    else if a[|a| - 1] == b[|b| - 1] then IsSubsequence(a[..|a| - 1], b[..|b| - 1])
    else IsSubsequence(a, b[..|b| - 1])
  }

  /** Number of positions of `s` whose element satisfies `p`. */
  function CountIn<X>(s: seq<X>, p: X -> bool): nat {
    if |s| == 0 then 0
    else (if p(s[|s| - 1]) then 1 else 0) + CountIn(s[..|s| - 1], p)
  }

  /** The elements of `s` satisfying `p`, in their order in `s`, repeats included. */
  function Filter<X(!new)>(s: seq<X>, p: X -> bool): (r: seq<X>)
    ensures forall x :: x in r <==> x in s && p(x)
    ensures |r| == CountIn(s, p)
  {
    if |s| == 0 then []
    else
      var init := Filter(s[..|s| - 1], p);
      assert s == s[..|s| - 1] + [s[|s| - 1]];
      if p(s[|s| - 1]) then init + [s[|s| - 1]] else init
  }

  /** One more element extends the filtered prefix by it exactly when it satisfies `p`. */
  lemma FilterSnoc<X(!new)>(s: seq<X>, i: nat, p: X -> bool)
    requires i < |s|
    ensures Filter(s[..i + 1], p) == Filter(s[..i], p) + (if p(s[i]) then [s[i]] else [])
  {
    assert s[..i + 1][..i] == s[..i];
  }

  lemma {:induction false} CountInConcat<X>(a: seq<X>, b: seq<X>, p: X -> bool)
    ensures CountIn(a + b, p) == CountIn(a, p) + CountIn(b, p)
    decreases |b|
  {
    if |b| > 0 {
      assert (a + b)[..|a + b| - 1] == a + b[..|b| - 1];
      CountInConcat(a, b[..|b| - 1], p);
    } else {
      assert a + b == a;
    }
  }

  /** Counting the matches of a duplicate-free sequence counts the matching elements of its set. */
  lemma {:induction false} CountInDistinct<X>(s: seq<X>, p: X -> bool, matching: set<X>)
    requires Distinct(s)
    requires forall x :: x in matching <==> x in s && p(x)
    ensures CountIn(s, p) == |matching|
  {
    if |s| > 0 {
      var init, last := s[..|s| - 1], s[|s| - 1];
      assert Distinct(init);
      assert last !in init;
      if p(last) {
        CountInDistinct(init, p, matching - {last});
      } else {
        CountInDistinct(init, p, matching);
      }
    } else {
      assert matching == {};
    }
  }

  /** A duplicate-free sequence has as many positions as its set has elements. */
  lemma {:induction false} DistinctCardinality<X>(s: seq<X>)
    requires Distinct(s)
    ensures |set x | x in s| == |s|
  {
    CountInDistinct(s, _ => true, set x | x in s);
    CountAll(s);
  }

  lemma {:induction false} CountAll<X>(s: seq<X>)
    ensures CountIn(s, (_: X) => true) == |s|
  {
    if |s| > 0 {
      CountAll(s[..|s| - 1]);
    }
  }

  lemma SubsetCardinality<X>(a: set<X>, b: set<X>)
    requires a <= b
    ensures |a| <= |b|
  {
    assert b == a + (b - a);
  }

  /** Lists every element of `s` exactly once, in an order chosen by the implementation. */
  method Enumerate<X>(s: set<X>) returns (r: seq<X>)
    ensures Distinct(r)
    ensures forall x :: x in r <==> x in s
    ensures |r| == |s|
  {
    r := [];
    var rest := s;
    while rest != {}
      invariant rest <= s
      invariant Distinct(r)
      invariant forall x :: x in r <==> x in s && x !in rest
      decreases rest
    {
      var x :| x in rest;
      r := r + [x];
      rest := rest - {x};
    }
    assert (set x | x in r) == s;
    DistinctCardinality(r);
  }

  /** Lists every element of `s` satisfying `p` exactly once, in an order chosen by the implementation. */
  method Select<X>(s: set<X>, p: X -> bool) returns (r: seq<X>)
    ensures Distinct(r)
    ensures forall x :: x in r <==> x in s && p(x)
    ensures |r| == |set x | x in s && p(x)|
  {
    var all := Enumerate(s);
    r := [];
    var i := 0;
    while i < |all|
      invariant 0 <= i <= |all|
      invariant Distinct(r)
      invariant forall x :: x in r <==> x in all[..i] && p(x)
    {
      assert all[..i + 1] == all[..i] + [all[i]];
      if p(all[i]) {
        r := r + [all[i]];
      }
      i := i + 1;
    }
    assert all[..i] == all;
    assert (set x | x in r) == (set x | x in s && p(x));
    DistinctCardinality(r);
  }
}
