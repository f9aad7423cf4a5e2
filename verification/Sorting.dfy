/** The contract of Go's sort.Slice and sort.Strings: an ordered rearrangement, stable or not. */
module Sorting {

  /** Go asks of its comparator that it is a strict weak order. */
  ghost predicate StrictWeakOrder<T(!new)>(lt: (T, T) -> bool) {
    && (forall a :: !lt(a, a))
    && (forall a, b, c :: lt(a, b) && lt(b, c) ==> lt(a, c))
    && (forall a, b, c :: lt(a, c) ==> lt(a, b) || lt(b, c))
  }

  ghost predicate Ordered<T>(s: seq<T>, lt: (T, T) -> bool) {
    forall i, j | 0 <= i < j < |s| :: !lt(s[j], s[i])
  }

  /** Inserts x before the first element that it must precede. */
  method Insert<T(!new)>(s: seq<T>, x: T, lt: (T, T) -> bool) returns (r: seq<T>)
    requires StrictWeakOrder(lt) && Ordered(s, lt)
    ensures Ordered(r, lt) && multiset(r) == multiset(s) + multiset{x}
  {
    var k := 0;
    while k < |s| && !lt(x, s[k])
      invariant 0 <= k <= |s|
      invariant forall j | 0 <= j < k :: !lt(x, s[j])
    {
      k := k + 1;
    }
    r := s[..k] + [x] + s[k..];
    assert s == s[..k] + s[k..];
    InsertKeepsOrder(s, k, x, lt);
  }

  lemma InsertKeepsOrder<T(!new)>(s: seq<T>, k: nat, x: T, lt: (T, T) -> bool)
    requires StrictWeakOrder(lt) && Ordered(s, lt) && k <= |s|
    requires (forall j | 0 <= j < k :: !lt(x, s[j])) && (k < |s| ==> lt(x, s[k]))
    ensures Ordered(s[..k] + [x] + s[k..], lt)
  {
    forall j | k <= j < |s| ensures !lt(s[j], x) {
      assert lt(x, s[k]);
      assert j == k || !lt(s[j], s[k]);
    }
  }

  method Sort<T(!new)>(s: seq<T>, lt: (T, T) -> bool) returns (r: seq<T>)
    requires StrictWeakOrder(lt)
    ensures Ordered(r, lt) && multiset(r) == multiset(s)
  {
    r := [];
    for i := 0 to |s|
      invariant Ordered(r, lt) && multiset(r) == multiset(s[..i])
    {
      r := Insert(r, s[i], lt);
      assert s[..i + 1] == s[..i] + [s[i]];
    }
    assert s[..|s|] == s;
  }

  lemma SameElements<T>(a: seq<T>, b: seq<T>)
    requires multiset(a) == multiset(b)
    ensures |a| == |b| && forall x :: x in a <==> x in b
  {
    assert |multiset(a)| == |a| && |multiset(b)| == |b|;
    forall x ensures x in a <==> x in b {
      assert x in a <==> x in multiset(a);
      assert x in b <==> x in multiset(b);
    }
  }

  ghost predicate Distinct<T>(s: seq<T>) {
    forall i, j | 0 <= i < j < |s| :: s[i] != s[j]
  }

  lemma {:induction false} DistinctCountsOne<T>(s: seq<T>)
    requires Distinct(s)
    ensures forall x | x in s :: multiset(s)[x] == 1
  {
    if s != [] {
      var t, z := s[..|s| - 1], s[|s| - 1];
      assert s == t + [z];
      assert z !in t;
      DistinctCountsOne(t);
    }
  }

  lemma CountsOneDistinct<T>(s: seq<T>)
    requires forall x | x in s :: multiset(s)[x] == 1
    ensures Distinct(s)
  {
    forall i, j | 0 <= i < j < |s| ensures s[i] != s[j] {
      var t, u := s[..j], s[j..];
      assert s == t + u;
      assert s[i] == t[i] && s[j] == u[0];
      assert s[i] in t && s[j] in u;
      assert multiset(s)[s[j]] == multiset(t)[s[j]] + multiset(u)[s[j]];
      assert s[j] in multiset(u);
      assert s[j] !in multiset(t);
    }
  }

  lemma PermutationKeepsDistinct<T>(a: seq<T>, b: seq<T>)
    requires multiset(a) == multiset(b) && Distinct(a)
    ensures Distinct(b)
  {
    DistinctCountsOne(a);
    SameElements(a, b);
    CountsOneDistinct(b);
  }
}
