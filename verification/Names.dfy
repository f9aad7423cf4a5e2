/** Node names in Go's string order, and the n-th name of a finite set in that order. */
module Names {
  import Sorting

  /** Go's `<` on strings: lexicographic, and a proper prefix comes first. */
  predicate Less(a: string, b: string) {
    if b == "" then false
    else if a == "" then true
    else a[0] < b[0] || (a[0] == b[0] && Less(a[1..], b[1..]))
  }

  lemma {:induction false} LessIrreflexive(a: string)
    ensures !Less(a, a)
  {
    if a != "" {
      LessIrreflexive(a[1..]);
    }
  }

  lemma {:induction false} LessTotal(a: string, b: string)
    ensures Less(a, b) || Less(b, a) || a == b
    ensures !(Less(a, b) && Less(b, a))
    ensures !Less(a, a)
    decreases |a| + |b|
  {
    if a != "" {
      LessIrreflexive(a);
    }
    if a != "" && b != "" && a[0] == b[0] {
      LessTotal(a[1..], b[1..]);
      assert a == [a[0]] + a[1..] && b == [b[0]] + b[1..];
    }
  }

  lemma {:induction false} LessTransitive(a: string, b: string, c: string)
    requires Less(a, b) && Less(b, c)
    ensures Less(a, c)
  {
    if a != "" && a[0] == b[0] == c[0] {
      LessTransitive(a[1..], b[1..], c[1..]);
    }
  }

  /** The texts are the same up to k, and there a has the smaller character. */
  ghost predicate SmallerAt(a: string, b: string, k: nat) {
    k < |a| && k < |b| && a[..k] == b[..k] && a[k] < b[k]
  }

  lemma SmallerBehind(a: string, b: string, k: nat)
    requires a != "" && b != "" && a[0] == b[0]
    ensures SmallerAt(a, b, k + 1) <==> SmallerAt(a[1..], b[1..], k)
    ensures !SmallerAt(a, b, 0)
    ensures a < b <==> a[1..] < b[1..]
  {
    var x, y := a[1..], b[1..];
    assert a == [a[0]] + x && b == [b[0]] + y;
    if k < |x| && k < |y| {
      assert a[..k + 1] == [a[0]] + x[..k] && b[..k + 1] == [b[0]] + y[..k];
      assert a[..k + 1][1..] == x[..k] && b[..k + 1][1..] == y[..k];
    }
  }

  lemma SmallerLater(a: string, b: string, k: nat)
    requires a != "" && b != ""
    ensures SmallerAt(a, b, k) && k > 0 ==> a[0] == b[0]
  {
    if 0 < k < |a| && k < |b| && a[..k] == b[..k] {
      assert a[..k][0] == b[..k][0];
    }
  }

  /** Which order it is: a proper prefix comes first, and otherwise the first character that differs decides. */
  lemma {:induction false} LessIsLexicographic(a: string, b: string)
    ensures Less(a, b) <==>
              a < b || exists k :: 0 <= k < |a| && k < |b| && a[..k] == b[..k] && a[k] < b[k]
  {
    LessBySmaller(a, b);
    assert (exists k: nat :: SmallerAt(a, b, k)) <==>
           (exists k :: 0 <= k < |a| && k < |b| && a[..k] == b[..k] && a[k] < b[k]) by {
      if k :| 0 <= k < |a| && k < |b| && a[..k] == b[..k] && a[k] < b[k] {
        assert SmallerAt(a, b, k);
      }
    }
  }

  lemma {:induction false} LessBySmaller(a: string, b: string)
    ensures Less(a, b) <==> a < b || exists k: nat :: SmallerAt(a, b, k)
  {
    if a != "" && b != "" {
      if a[0] == b[0] {
        LessBySmaller(a[1..], b[1..]);
        hide SmallerAt;
        SmallerBehind(a, b, 0);
        if k: nat :| SmallerAt(a[1..], b[1..], k) {
          SmallerBehind(a, b, k);
        }
        if k: nat :| SmallerAt(a, b, k) {
          assert k > 0;
          SmallerBehind(a, b, k - 1);
        }
      } else {
        assert a[0] < b[0] ==> SmallerAt(a, b, 0);
        if k: nat :| SmallerAt(a, b, k) {
          SmallerLater(a, b, k);
        }
      }
    }
  }

  lemma LessIsStrictWeakOrder()
    ensures Sorting.StrictWeakOrder(Less)
  {
    forall a: string ensures !Less(a, a) { LessTotal(a, a); }
    forall a: string, b: string, c: string | Less(a, b) && Less(b, c) ensures Less(a, c) {
      LessTransitive(a, b, c);
    }
    forall a: string, b: string, c: string | Less(a, c) ensures Less(a, b) || Less(b, c) {
      LessTotal(a, b);
      if Less(b, a) { LessTransitive(b, a, c); }
    }
  }

  /** The names of S that come before n. */
  ghost function Below(S: set<string>, n: string): set<string> {
    set m | m in S && Less(m, n)
  }

  ghost function Rank(S: set<string>, n: string): nat {
    |Below(S, n)|
  }

  lemma ProperSubsetIsSmaller<T>(A: set<T>, B: set<T>)
    requires A < B
    ensures |A| < |B|
  {
    SubsetIsNoLarger(A, B);
    if |A| == |B| {
      var x :| x in B && x !in A;
      SubsetIsNoLarger(A, B - {x});
    }
  }

  lemma {:induction false} SubsetIsNoLarger<T>(A: set<T>, B: set<T>)
    requires A <= B
    ensures |A| <= |B|
    decreases |B|
  {
    if A != {} {
      var x :| x in A;
      SubsetIsNoLarger(A - {x}, B - {x});
    }
  }

  lemma RankGrows(S: set<string>, a: string, b: string)
    requires a in S && Less(a, b)
    ensures Rank(S, a) < Rank(S, b)
  {
    forall m | m in Below(S, a) ensures m in Below(S, b) {
      LessTransitive(m, a, b);
    }
    LessTotal(a, a);
    assert a in Below(S, b) && a !in Below(S, a);
    ProperSubsetIsSmaller(Below(S, a), Below(S, b));
  }

  lemma RankInjective(S: set<string>, a: string, b: string)
    requires a in S && b in S && Rank(S, a) == Rank(S, b)
    ensures a == b
  {
    LessTotal(a, b);
    if Less(a, b) {
      RankGrows(S, a, b);
    } else if Less(b, a) {
      RankGrows(S, b, a);
    }
  }

  lemma RankBounded(S: set<string>, n: string)
    requires n in S
    ensures Rank(S, n) < |S|
  {
    LessTotal(n, n);
    assert n !in Below(S, n);
    ProperSubsetIsSmaller(Below(S, n), S);
  }

  lemma {:induction false} GreatestExists(S: set<string>) returns (g: string)
    requires S != {}
    ensures g in S && forall m | m in S && m != g :: Less(m, g)
    decreases |S|
  {
    g :| g in S;
    if S != {g} {
      var h := GreatestExists(S - {g});
      LessTotal(g, h);
      if Less(g, h) {
        g := h;
      } else {
        forall m | m in S && m != g ensures Less(m, g) {
          if m != h { LessTransitive(m, h, g); }
        }
      }
    }
  }

  lemma {:induction false} RankExists(S: set<string>, i: nat)
    requires i < |S|
    ensures exists n :: n in S && Rank(S, n) == i
    decreases |S|
  {
    var g := GreatestExists(S);
    if i == |S| - 1 {
      LessTotal(g, g);
      assert Below(S, g) == S - {g};
    } else {
      RankExists(S - {g}, i);
      var n :| n in S - {g} && Rank(S - {g}, n) == i;
      LessTotal(g, n);
      assert Below(S - {g}, n) == Below(S, n);
    }
  }

  /** The i-th name of S in name order, counting from 0. */
  ghost function Nth(S: set<string>, i: nat): (n: string)
    requires i < |S|
    ensures n in S && Rank(S, n) == i
    ensures forall m | m in S && Rank(S, m) == i :: m == n
  {
    RankExists(S, i);
    var n :| n in S && Rank(S, n) == i;
    assert forall m | m in S && Rank(S, m) == i :: m == n by {
      forall m | m in S && Rank(S, m) == i ensures m == n { RankInjective(S, m, n); }
    }
    n
  }

  /** The least name of S: no name of S comes before it, and it is the only such name. */
  ghost function Least(S: set<string>): (n: string)
    requires S != {}
    ensures n in S && forall m | m in S && m != n :: Less(n, m)
  {
    var n := Nth(S, 0);
    assert forall m | m in S && m != n :: Less(n, m) by {
      assert Below(S, n) == {};
      forall m | m in S && m != n ensures Less(n, m) {
        LessTotal(n, m);
        assert m !in Below(S, n);
      }
    }
    n
  }

  /** The first name in the order, spelled out. */
  lemma FirstInOrder(S: set<string>, n: string)
    requires n in S && Rank(S, n) == 0
    ensures forall m | m in S && m != n ::
              n < m || exists k :: 0 <= k < |n| && k < |m| && n[..k] == m[..k] && n[k] < m[k]
  {
    forall m | m in S && m != n
      ensures n < m || exists k :: 0 <= k < |n| && k < |m| && n[..k] == m[..k] && n[k] < m[k]
    {
      LessTotal(n, m);
      assert m !in Below(S, n);
      LessIsLexicographic(n, m);
    }
  }

  ghost predicate StrictlyAscending(s: seq<string>) {
    forall i, j | 0 <= i < j < |s| :: Less(s[i], s[j])
  }

  /** In a strictly ascending list, position and rank are the same number. */
  lemma {:induction false} AscendingPositionIsRank(s: seq<string>, i: nat)
    requires StrictlyAscending(s) && i < |s|
    ensures var S := set n | n in s; |S| == |s| && Rank(S, s[i]) == i && Nth(S, i) == s[i]
  {
    var S := set n | n in s;
    AscendingCardinality(s);
    AscendingCardinality(s[..i]);
    BelowIsPrefix(s, i);
  }

  lemma BelowIsPrefix(s: seq<string>, i: nat)
    requires StrictlyAscending(s) && i < |s|
    ensures (set n | n in s[..i]) == Below((set n | n in s), s[i])
  {
    forall m | m in s && Less(m, s[i]) ensures m in s[..i] {
      var k :| 0 <= k < |s| && s[k] == m;
      LessTotal(s[k], s[i]);
      assert k < i;
      assert s[..i][k] == m;
    }
  }

  lemma {:induction false} AscendingCardinality(s: seq<string>)
    requires StrictlyAscending(s)
    ensures |set n | n in s| == |s|
  {
    if s != [] {
      var t := s[..|s| - 1];
      var z := s[|s| - 1];
      AscendingCardinality(t);
      LessTotal(z, z);
      assert z !in t;
      assert s == t + [z];
      assert (set n | n in s) == (set n | n in t) + {z};
    }
  }

  ghost predicate Injective(f: map<nat, nat>) {
    forall a, b | a in f && b in f && f[a] == f[b] :: a == b
  }

  /** An injective map does not make a set smaller. */
  lemma {:induction false} ImageSize(A: set<nat>, f: map<nat, nat>)
    requires A <= f.Keys && Injective(f)
    ensures |set a | a in A :: f[a]| == |A|
    decreases |A|
  {
    if A != {} {
      var x :| x in A;
      ImageSize(A - {x}, f);
      assert (set a | a in A :: f[a]) == (set a | a in A - {x} :: f[a]) + {f[x]};
    }
  }
}
