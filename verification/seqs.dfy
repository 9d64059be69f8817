/** Order-aware facts about sequences: distinctness, first-occurrence
    deduplication, order-preserving subsequences and set difference. The sync
    job's ordering guarantees are all stated with these. */
module Seqs {

  predicate Distinct<T(==)>(s: seq<T>) {
    forall i, j | 0 <= i < j < |s| :: s[i] != s[j]
  }

  function Elems<T>(s: seq<T>): set<T> {
    set x | x in s
  }

  /** `a` is obtained from `b` by deleting elements, keeping the order of the
      rest (greedy match from the back). */
  predicate IsSubsequence<T(==)>(a: seq<T>, b: seq<T>)
    decreases |b|
  {
    if a == [] then true
    else if b == [] then false
    else if a[|a| - 1] == b[|b| - 1] then IsSubsequence(a[..|a| - 1], b[..|b| - 1])
    else IsSubsequence(a, b[..|b| - 1])
  }

  /** Position of the first occurrence of `x`. */
  function FirstIndex<T(==)>(s: seq<T>, x: T): (i: nat)
    requires x in s
    ensures i < |s| && s[i] == x
    ensures forall j | 0 <= j < i :: s[j] != x
  {
    if s[0] == x then 0 else 1 + FirstIndex(s[1..], x)
  }

  /** Position of the last occurrence of `x`. */
  function LastIndex<T(==)>(s: seq<T>, x: T): (i: nat)
    requires x in s
    ensures i < |s| && s[i] == x
    ensures forall j | i < j < |s| :: s[j] != x
  {
    if s[|s| - 1] == x then |s| - 1 else LastIndex(s[..|s| - 1], x)
  }

  /** Appending never moves the first occurrence of an element already present. */
  lemma FirstIndexAppend<T>(s: seq<T>, t: seq<T>, x: T)
    requires x in s
    ensures FirstIndex(s + t, x) == FirstIndex(s, x)
  {
    var i := FirstIndex(s, x);
    var k := FirstIndex(s + t, x);
    assert (s + t)[i] == x;
    assert k <= i;
    assert s[k] == x;
  }

  /** The elements of `s` in order of first appearance, each once (Python's
      `list(dict.fromkeys(s))`). */
  function Dedup<T(==)>(s: seq<T>): (r: seq<T>)
    ensures Distinct(r)
    ensures forall x | x in r :: x in s
    ensures forall x | x in s :: x in r
    ensures |r| <= |s|
  {
    if s == [] then []
    else
      var d := Dedup(s[..|s| - 1]);
      var x := s[|s| - 1];
      if x in d then d else d + [x]
  }

  /** Dedup lists elements in the order of their first occurrence in `s`. */
  lemma {:induction false} DedupFirstSeenOrder<T>(s: seq<T>)
    ensures forall i, j | 0 <= i < j < |Dedup(s)| :: FirstIndex(s, Dedup(s)[i]) < FirstIndex(s, Dedup(s)[j])
  {
    if s != [] {
      var p := s[..|s| - 1];
      var x := s[|s| - 1];
      var d := Dedup(p);
      DedupFirstSeenOrder(p);
      assert s == p + [x];
      forall y | y in p
        ensures FirstIndex(s, y) == FirstIndex(p, y) < |p|
      {
        FirstIndexAppend(p, [x], y);
      }
      if x !in d {
        assert FirstIndex(s, x) == |p|;
      }
    }
  }

  /** Dedup of an extension: the new element is appended iff it is new. */
  lemma DedupSnoc<T>(s: seq<T>, x: T)
    ensures Dedup(s + [x]) == if x in s then Dedup(s) else Dedup(s) + [x]
  {
    assert (s + [x])[..|s|] == s;
  }

  /** A duplicate-free sequence has as many distinct elements as entries. */
  lemma {:induction false} DistinctCardinality<T>(s: seq<T>)
    requires Distinct(s)
    ensures |Elems(s)| == |s|
  {
    if s != [] {
      var p := s[..|s| - 1];
      var x := s[|s| - 1];
      DistinctCardinality(p);
      assert Elems(s) == Elems(p) + {x};
      assert x !in Elems(p);
    }
  }

  /** The number of distinct elements of `s` is the length of its dedup. */
  lemma CardinalityIsDedupLength<T>(s: seq<T>)
    ensures |Elems(s)| == |Dedup(s)|
  {
    DistinctCardinality(Dedup(s));
    assert Elems(Dedup(s)) == Elems(s);
  }

  /** Python's `[x for x in s if x not in excluded]`. */
  function Without<T(==)>(s: seq<T>, excluded: set<T>): (r: seq<T>)
    ensures |r| <= |s|
    ensures forall x | x in r :: x in s && x !in excluded
    ensures forall x | x in s && x !in excluded :: x in r
    ensures IsSubsequence(r, s)
    ensures Distinct(s) ==> Distinct(r)
  {
    if s == [] then []
    else
      var w := Without(s[..|s| - 1], excluded);
      var x := s[|s| - 1];
      if x in excluded then w else w + [x]
  }

  /** The order-preserving set difference is the only duplicate-free
      subsequence of a duplicate-free `s` that holds exactly the elements of
      `s` outside `excluded`. */
  lemma {:induction false} WithoutUnique<T>(s: seq<T>, excluded: set<T>, r: seq<T>)
    requires Distinct(s)
    requires IsSubsequence(r, s)
    requires forall x :: x in r <==> x in s && x !in excluded
    ensures r == Without(s, excluded)
  {
    if s != [] {
      var p := s[..|s| - 1];
      var x := s[|s| - 1];
      assert x !in p;
      if r != [] && r[|r| - 1] == x {
        var q := r[..|r| - 1];
        SubsequenceDistinct(r, s);
        assert x !in q;
        forall y
          ensures y in q <==> y in p && y !in excluded
        {
          if y in q {
            SubsequenceElems(q, p);
          }
          if y in p && y !in excluded {
            assert y in r && y != x;
            assert y in q;
          }
        }
        WithoutUnique(p, excluded, q);
        assert r == q + [x];
      } else {
        assert IsSubsequence(r, p);
        SubsequenceElems(r, p);
        assert x !in r;
        assert x in excluded;
        WithoutUnique(p, excluded, r);
      }
    }
  }

  /** `r` is `s` with every occurrence of `x` dropped and the order kept: a
      subsequence of `s` that holds exactly the elements of `s` other than
      `x`, one entry for each position of `s` not holding `x`. */
  predicate Drops<T(==)>(r: seq<T>, s: seq<T>, x: T) {
    && IsSubsequence(r, s)
    && (forall a | a in r :: a in s && a != x)
    && (forall a | a in s && a != x :: a in r)
    && |r| == |s| - multiset(s)[x]
  }

  /** One more element of `s` is dropped when it is `x` and kept otherwise. */
  lemma DropsSnoc<T>(r: seq<T>, s: seq<T>, x: T, y: T)
    requires Drops(r, s, x)
    ensures Drops(if y == x then r else r + [y], s + [y], x)
  {
    assert multiset(s + [y]) == multiset(s) + multiset{y};
    if y == x {
      assert r != [] ==> r[|r| - 1] in r;
      SubsequenceExtend(r, s, y);
    } else {
      SubsequenceSnoc(r, s, y);
    }
  }

  /** Dropping `x` from a sequence holding nothing else leaves nothing. */
  lemma {:induction false} DropsAll<T>(r: seq<T>, s: seq<T>, x: T)
    requires Drops(r, s, x)
    requires forall k | 0 <= k < |s| :: s[k] == x
    ensures r == []
  {
    CountAll(s, x);
  }

  lemma {:induction false} CountAll<T>(s: seq<T>, x: T)
    requires forall k | 0 <= k < |s| :: s[k] == x
    ensures multiset(s)[x] == |s|
  {
    if s != [] {
      var p := s[..|s| - 1];
      CountAll(p, x);
      assert s == p + [x];
      assert multiset(s) == multiset(p) + multiset{x};
    }
  }

  /** The order-preserving filter keeps one element per position not
      holding an excluded value. */
  lemma {:induction false} WithoutCount<T>(s: seq<T>, x: T)
    ensures |Without(s, {x})| == |s| - multiset(s)[x]
  {
    if s != [] {
      var p := s[..|s| - 1];
      WithoutCount(p, x);
      assert s == p + [s[|s| - 1]];
      assert multiset(s) == multiset(p) + multiset{s[|s| - 1]};
    }
  }

  /** A subsequence of `s` free of `x` is at most as long as the number of
      positions of `s` not holding `x`, and only `Without(s, {x})` reaches
      that length. */
  lemma {:induction false} SubsequenceAvoiding<T>(r: seq<T>, s: seq<T>, x: T)
    requires IsSubsequence(r, s) && x !in r
    ensures |r| <= |s| - multiset(s)[x]
    ensures |r| == |s| - multiset(s)[x] ==> r == Without(s, {x})
    decreases |s|
  {
    WithoutCount(s, x);
    if s != [] {
      var p := s[..|s| - 1];
      var y := s[|s| - 1];
      assert s == p + [y];
      assert multiset(s) == multiset(p) + multiset{y};
      if r != [] && r[|r| - 1] == y {
        var q := r[..|r| - 1];
        assert r == q + [y];
        assert x !in q;
        SubsequenceAvoiding(q, p, x);
      } else if r != [] {
        SubsequenceAvoiding(r, p, x);
      }
    }
  }

  /** The three clauses of `Drops` pin the result down: it is the
      order-preserving filter. */
  lemma DropsIsWithout<T>(r: seq<T>, s: seq<T>, x: T)
    ensures Drops(r, s, x) <==> r == Without(s, {x})
  {
    if Drops(r, s, x) {
      SubsequenceAvoiding(r, s, x);
    }
    if r == Without(s, {x}) {
      WithoutCount(s, x);
    }
  }

  /** A subsequence stays one when the same element is appended to both. */
  lemma SubsequenceSnoc<T>(a: seq<T>, b: seq<T>, x: T)
    requires IsSubsequence(a, b)
    ensures IsSubsequence(a + [x], b + [x])
  {
    assert (a + [x])[..|a|] == a;
    assert (b + [x])[..|b|] == b;
  }

  /** A subsequence stays one when the longer sequence grows by an element
      other than the shorter one's last. */
  lemma SubsequenceExtend<T>(a: seq<T>, b: seq<T>, x: T)
    requires IsSubsequence(a, b)
    requires a == [] || a[|a| - 1] != x
    ensures IsSubsequence(a, b + [x])
  {
    assert (b + [x])[..|b|] == b;
  }

  /** A subsequence of all but the last element, not containing the last,
      is a subsequence of the whole. */
  lemma SubsequenceSkipLast<T>(a: seq<T>, b: seq<T>)
    requires b != [] && IsSubsequence(a, b[..|b| - 1]) && b[|b| - 1] !in a
    ensures IsSubsequence(a, b)
  {
    assert a != [] ==> a[|a| - 1] in a;
  }

  /** Taking the last element along keeps a subsequence. */
  lemma SubsequenceTakeLast<T>(a: seq<T>, b: seq<T>)
    requires b != [] && IsSubsequence(a, b[..|b| - 1])
    ensures IsSubsequence(a + [b[|b| - 1]], b)
  {
    assert (a + [b[|b| - 1]])[..|a|] == a;
  }

  lemma {:induction false} SubsequenceElems<T>(a: seq<T>, b: seq<T>)
    requires IsSubsequence(a, b)
    ensures forall x | x in a :: x in b
    decreases |b|
  {
    if a != [] && b != [] {
      if a[|a| - 1] == b[|b| - 1] {
        SubsequenceElems(a[..|a| - 1], b[..|b| - 1]);
        assert a == a[..|a| - 1] + [a[|a| - 1]];
      } else {
        SubsequenceElems(a, b[..|b| - 1]);
      }
    }
  }

  lemma {:induction false} SubsequenceDistinct<T>(a: seq<T>, b: seq<T>)
    requires IsSubsequence(a, b) && Distinct(b)
    ensures Distinct(a)
    decreases |b|
  {
    if a != [] && b != [] {
      var b' := b[..|b| - 1];
      if a[|a| - 1] == b[|b| - 1] {
        var a' := a[..|a| - 1];
        SubsequenceDistinct(a', b');
        SubsequenceElems(a', b');
        assert b[|b| - 1] !in b';
        assert a == a' + [a[|a| - 1]];
      } else {
        SubsequenceDistinct(a, b');
      }
    }
  }

  /** Apply `f` to each element, in order. */
  function MapSeq<A, B>(xs: seq<A>, f: A -> B): (r: seq<B>)
    ensures |r| == |xs|
    ensures forall i | 0 <= i < |xs| :: r[i] == f(xs[i])
  {
    if xs == [] then []
    else
      var pre := xs[..|xs| - 1];
      var r := MapSeq(pre, f) + [f(xs[|xs| - 1])];
      assert forall i | 0 <= i < |pre| :: pre[i] == xs[i] && r[i] == MapSeq(pre, f)[i];
      r
  }
}
