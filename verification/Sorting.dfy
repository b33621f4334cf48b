/** Stable insertion sort over an arbitrary preorder, and the lexicographic order on sequences. */
module Sorting {

  ghost predicate TotalPreorder<T(!new)>(leq: (T, T) -> bool) {
    && (forall x, y :: leq(x, y) || leq(y, x))
    && (forall x, y, z :: leq(x, y) && leq(y, z) ==> leq(x, z))
  }

  ghost predicate SortedBy<T>(s: seq<T>, leq: (T, T) -> bool) {
    forall i, j | 0 <= i < j < |s| :: leq(s[i], s[j])
  }

  /** Puts x in front of the first element it may precede, so equal elements keep their order. */
  function Insert<T>(x: T, s: seq<T>, leq: (T, T) -> bool): seq<T> {
    if s == [] then [x]
    else if leq(x, s[0]) then [x] + s
    else [s[0]] + Insert(x, s[1..], leq)
  }

  function Sort<T>(s: seq<T>, leq: (T, T) -> bool): seq<T> {
    if s == [] then [] else Insert(s[0], Sort(s[1..], leq), leq)
  }

  lemma {:induction false} InsertPermutes<T>(x: T, s: seq<T>, leq: (T, T) -> bool)
    ensures multiset(Insert(x, s, leq)) == multiset{x} + multiset(s)
  {
    if s != [] && !leq(x, s[0]) {
      InsertPermutes(x, s[1..], leq);
      assert s == [s[0]] + s[1..];
    }
  }

  lemma {:induction false} SortPermutes<T>(s: seq<T>, leq: (T, T) -> bool)
    ensures multiset(Sort(s, leq)) == multiset(s)
    ensures |Sort(s, leq)| == |s|
  {
    if s != [] {
      SortPermutes(s[1..], leq);
      InsertPermutes(s[0], Sort(s[1..], leq), leq);
      assert s == [s[0]] + s[1..];
    }
    assert |multiset(Sort(s, leq))| == |Sort(s, leq)|;
  }

  lemma {:induction false} MembersFromMultiset<T>(a: seq<T>, b: seq<T>)
    requires multiset(a) == multiset(b)
    ensures forall x :: x in a <==> x in b
  {
    forall x
      ensures x in a <==> x in b
    {
      assert x in a <==> x in multiset(a);
      assert x in b <==> x in multiset(b);
    }
  }

  lemma {:induction false} InsertSorts<T(!new)>(x: T, s: seq<T>, leq: (T, T) -> bool)
    requires TotalPreorder(leq) && SortedBy(s, leq)
    ensures SortedBy(Insert(x, s, leq), leq)
  {
    if s != [] && !leq(x, s[0]) {
      var t := Insert(x, s[1..], leq);
      InsertSorts(x, s[1..], leq);
      InsertPermutes(x, s[1..], leq);
      forall j | 0 <= j < |t|
        ensures leq(s[0], t[j])
      {
        assert t[j] in multiset(t);
        if t[j] != x { assert t[j] in s[1..]; }
      }
    }
  }

  lemma {:induction false} SortSorts<T(!new)>(s: seq<T>, leq: (T, T) -> bool)
    requires TotalPreorder(leq)
    ensures SortedBy(Sort(s, leq), leq)
  {
    if s != [] {
      SortSorts(s[1..], leq);
      InsertSorts(s[0], Sort(s[1..], leq), leq);
    }
  }

  lemma {:induction false} SameFirst<T(!new)>(a: seq<T>, b: seq<T>, leq: (T, T) -> bool)
    requires SortedBy(a, leq) && SortedBy(b, leq) && a != [] && b != [] && a[0] in b && b[0] in a
    requires forall x, y | x in a && y in a && leq(x, y) && leq(y, x) :: x == y
    ensures a[0] == b[0]
  {
    var i :| 0 <= i < |b| && b[i] == a[0];
    var j :| 0 <= j < |a| && a[j] == b[0];
    if i != 0 && j != 0 { assert leq(a[0], b[0]) && leq(b[0], a[0]); }
  }

  /** Two sorted arrangements of the same elements are equal once ties force equality. */
  lemma {:induction false} SortedUnique<T(!new)>(a: seq<T>, b: seq<T>, leq: (T, T) -> bool)
    requires SortedBy(a, leq) && SortedBy(b, leq)
    requires multiset(a) == multiset(b)
    requires forall x, y | x in a && y in a && leq(x, y) && leq(y, x) :: x == y
    ensures a == b
  {
    assert |multiset(a)| == |a| && |multiset(b)| == |b|;
    if a != [] {
      MembersFromMultiset(a, b);
      var x, y := a[0], b[0];
      assert x in b && y in a;
      SameFirst(a, b, leq);
      TailMultiset(a);
      TailMultiset(b);
      SortedUnique(a[1..], b[1..], leq);
      assert a == [x] + a[1..] && b == [x] + b[1..];
    }
  }

  lemma {:induction false} TailMultiset<T>(s: seq<T>)
    requires s != []
    ensures multiset(s[1..]) == multiset(s) - multiset{s[0]}
  {
    assert s == [s[0]] + s[1..];
  }

  lemma {:induction false} InsertKeepsSorted<T>(x: T, s: seq<T>, leq: (T, T) -> bool)
    requires SortedBy([x] + s, leq)
    ensures Insert(x, s, leq) == [x] + s
  {
    if s != [] { assert leq(([x] + s)[0], ([x] + s)[1]); }
  }

  /** Sorting a sorted sequence changes nothing. */
  lemma {:induction false} SortFixed<T>(s: seq<T>, leq: (T, T) -> bool)
    requires SortedBy(s, leq)
    ensures Sort(s, leq) == s
  {
    if s != [] {
      SortFixed(s[1..], leq);
      assert s == [s[0]] + s[1..];
      InsertKeepsSorted(s[0], s[1..], leq);
    }
  }

  ghost predicate DistinctBy<T, K>(s: seq<T>, key: T -> K) {
    forall i, j | 0 <= i < j < |s| :: key(s[i]) != key(s[j])
  }

  lemma {:induction false} InsertDistinct<T, K>(x: T, s: seq<T>, leq: (T, T) -> bool, key: T -> K)
    requires DistinctBy(s, key) && forall i | 0 <= i < |s| :: key(s[i]) != key(x)
    ensures DistinctBy(Insert(x, s, leq), key)
  {
    if s != [] && !leq(x, s[0]) {
      var t := Insert(x, s[1..], leq);
      InsertDistinct(x, s[1..], leq, key);
      InsertPermutes(x, s[1..], leq);
      forall j | 0 <= j < |t|
        ensures key(t[j]) != key(s[0])
      {
        assert t[j] in multiset(t);
        if t[j] != x { assert t[j] in s[1..]; }
      }
    }
  }

  /** Sorting keeps keys pairwise distinct. */
  lemma {:induction false} SortDistinct<T, K>(s: seq<T>, leq: (T, T) -> bool, key: T -> K)
    requires DistinctBy(s, key)
    ensures DistinctBy(Sort(s, leq), key)
  {
    if s != [] {
      var t := Sort(s[1..], leq);
      SortDistinct(s[1..], leq, key);
      SortPermutes(s[1..], leq);
      forall i | 0 <= i < |t|
        ensures key(t[i]) != key(s[0])
      {
        assert t[i] in multiset(t) && t[i] in multiset(s[1..]);
      }
      InsertDistinct(s[0], t, leq, key);
    }
  }

  lemma {:induction false} DistinctMultiplicity<T, K>(a: seq<T>, key: T -> K, x: T)
    requires DistinctBy(a, key)
    ensures multiset(a)[x] == if x in a then 1 else 0
  {
    if a != [] {
      DistinctMultiplicity(a[1..], key, x);
      assert a == [a[0]] + a[1..];
    }
  }

  /** Distinct sequences with the same members are permutations of each other. */
  lemma {:induction false} SameMembersPermute<T(!new), K>(a: seq<T>, b: seq<T>, key: T -> K)
    requires DistinctBy(a, key) && DistinctBy(b, key)
    requires forall x :: x in a <==> x in b
    ensures multiset(a) == multiset(b)
  {
    forall x: T
      ensures multiset(a)[x] == multiset(b)[x]
    {
      DistinctMultiplicity(a, key, x);
      DistinctMultiplicity(b, key, x);
    }
  }

  function Total<T>(s: seq<T>, weight: T -> nat): nat {
    if s == [] then 0 else weight(s[0]) + Total(s[1..], weight)
  }

  lemma {:induction false} TotalAppend<T>(a: seq<T>, b: seq<T>, weight: T -> nat)
    ensures Total(a + b, weight) == Total(a, weight) + Total(b, weight)
  {
    if a == [] {
      assert a + b == b;
    } else {
      assert (a + b)[1..] == a[1..] + b;
      TotalAppend(a[1..], b, weight);
    }
  }

  /** A total does not depend on the order of its terms. */
  lemma {:induction false} TotalPermuted<T>(a: seq<T>, b: seq<T>, weight: T -> nat)
    requires multiset(a) == multiset(b)
    ensures Total(a, weight) == Total(b, weight)
  {
    if a == [] {
      assert |multiset(b)| == |b|;
    } else {
      MembersFromMultiset(a, b);
      assert a[0] in b;
      var i :| 0 <= i < |b| && b[i] == a[0];
      TailMultiset(a);
      RemovedOne(b, i, b[..i] + b[i + 1..]);
      TotalPermuted(a[1..], b[..i] + b[i + 1..], weight);
      TotalWithout(b, i, weight);
    }
  }

  lemma {:induction false} RemovedOne<T>(s: seq<T>, i: nat, rest: seq<T>)
    requires i < |s| && rest == s[..i] + s[i + 1..]
    ensures multiset(rest) == multiset(s) - multiset{s[i]}
  {
    assert s == s[..i] + ([s[i]] + s[i + 1..]);
    assert multiset(s) == multiset(s[..i]) + (multiset{s[i]} + multiset(s[i + 1..]));
  }

  lemma {:induction false} TotalWithout<T>(s: seq<T>, i: nat, weight: T -> nat)
    requires i < |s|
    ensures Total(s, weight) == weight(s[i]) + Total(s[..i] + s[i + 1..], weight)
  {
    var back := [s[i]] + s[i + 1..];
    assert s == s[..i] + back && back[1..] == s[i + 1..];
    TotalAppend(s[..i], s[i + 1..], weight);
    TotalAppend(s[..i], back, weight);
  }

  function Filter<T>(s: seq<T>, p: T -> bool): (r: seq<T>)
    ensures forall x | x in r :: x in s && p(x)
    ensures forall x | x in s && p(x) :: x in r
    ensures |r| <= |s|
  {
    if s == [] then []
    else (if p(s[0]) then [s[0]] else []) + Filter(s[1..], p)
  }

  lemma {:induction false} FilterDistinct<T>(s: seq<T>, p: T -> bool)
    requires forall i, j | 0 <= i < j < |s| :: s[i] != s[j]
    ensures forall i, j | 0 <= i < j < |Filter(s, p)| :: Filter(s, p)[i] != Filter(s, p)[j]
  {
    if s != [] {
      var t := Filter(s[1..], p);
      FilterDistinct(s[1..], p);
      assert forall x | x in t :: x in s[1..];
      if p(s[0]) {
        forall j | 0 <= j < |t|
          ensures t[j] != s[0]
        {
          assert t[j] in t;
        }
      }
    }
  }

  lemma {:induction false} FilterAgrees<T>(s: seq<T>, p: T -> bool, q: T -> bool)
    requires forall x | x in s :: p(x) == q(x)
    ensures Filter(s, p) == Filter(s, q)
  {
    if s != [] { FilterAgrees(s[1..], p, q); }
  }

  lemma {:induction false} FilterAppend<T>(a: seq<T>, b: seq<T>, p: T -> bool)
    ensures Filter(a + b, p) == Filter(a, p) + Filter(b, p)
  {
    if a == [] {
      assert a + b == b;
    } else {
      assert (a + b)[1..] == a[1..] + b;
      FilterAppend(a[1..], b, p);
    }
  }

  lemma {:induction false} FilterKeepsOrder<T>(s: seq<T>, p: T -> bool, i: nat, j: nat)
    requires i < j < |s| && p(s[i]) && p(s[j])
    ensures exists a, b | 0 <= a < b < |Filter(s, p)| :: Filter(s, p)[a] == s[i] && Filter(s, p)[b] == s[j]
  {
    var t := Filter(s[1..], p);
    if i == 0 {
      assert s[j] == s[1..][j - 1] && s[j] in t;
      var b :| 0 <= b < |t| && t[b] == s[j];
      assert Filter(s, p)[0] == s[0] && Filter(s, p)[b + 1] == s[j];
    } else {
      FilterKeepsOrder(s[1..], p, i - 1, j - 1);
      var a, b :| 0 <= a < b < |t| && t[a] == s[i] && t[b] == s[j];
      var k := if p(s[0]) then 1 else 0;
      assert Filter(s, p)[a + k] == s[i] && Filter(s, p)[b + k] == s[j];
    }
  }

  /** Two filtered elements come from the sequence in the same order. */
  lemma {:induction false} FilteredFrom<T>(s: seq<T>, f: T -> bool, i: nat, j: nat) returns (x: nat, y: nat)
    requires i < j < |Filter(s, f)|
    ensures x < y < |s| && s[x] == Filter(s, f)[i] && s[y] == Filter(s, f)[j]
  {
    var k := if f(s[0]) then 1 else 0;
    if i < k {
      assert Filter(s, f)[j] in Filter(s[1..], f);
      x := 0;
      y :| 1 <= y < |s| && s[1..][y - 1] == Filter(s, f)[j];
    } else {
      x, y := FilteredFrom(s[1..], f, i - k, j - k);
      x, y := x + 1, y + 1;
    }
  }

  lemma {:induction false} InsertStable<T(!new)>(x: T, s: seq<T>, leq: (T, T) -> bool, p: T -> bool)
    requires forall y, z :: p(y) && p(z) ==> leq(y, z)
    ensures Filter(Insert(x, s, leq), p) == (if p(x) then [x] else []) + Filter(s, p)
  {
    if s == [] {
    } else if leq(x, s[0]) {
      assert ([x] + s)[1..] == s;
    } else {
      InsertStable(x, s[1..], leq, p);
      assert ([s[0]] + Insert(x, s[1..], leq))[1..] == Insert(x, s[1..], leq);
    }
  }

  /** Sorting keeps the relative order of any class of mutually equivalent elements. */
  lemma {:induction false} SortStable<T(!new)>(s: seq<T>, leq: (T, T) -> bool, p: T -> bool)
    requires forall y, z :: p(y) && p(z) ==> leq(y, z)
    ensures Filter(Sort(s, leq), p) == Filter(s, p)
  {
    if s != [] {
      SortStable(s[1..], leq, p);
      InsertStable(s[0], Sort(s[1..], leq), leq, p);
    }
  }

  /** Lexicographic order by an integer rank: a proper prefix comes first. */
  predicate LexLeq<T>(a: seq<T>, b: seq<T>, rank: T -> int) {
    || a == []
    || (b != [] && (rank(a[0]) < rank(b[0]) || (rank(a[0]) == rank(b[0]) && LexLeq(a[1..], b[1..], rank))))
  }

  lemma {:induction false} LexTotal<T>(a: seq<T>, b: seq<T>, rank: T -> int)
    ensures LexLeq(a, b, rank) || LexLeq(b, a, rank)
  {
    if a != [] && b != [] { LexTotal(a[1..], b[1..], rank); }
  }

  lemma {:induction false} LexTransitive<T>(a: seq<T>, b: seq<T>, c: seq<T>, rank: T -> int)
    requires LexLeq(a, b, rank) && LexLeq(b, c, rank)
    ensures LexLeq(a, c, rank)
  {
    if a != [] && rank(a[0]) == rank(b[0]) == rank(c[0]) { LexTransitive(a[1..], b[1..], c[1..], rank); }
  }

  lemma {:induction false} LexAntisymmetric<T(!new)>(a: seq<T>, b: seq<T>, rank: T -> int)
    requires forall x, y :: rank(x) == rank(y) ==> x == y
    requires LexLeq(a, b, rank) && LexLeq(b, a, rank)
    ensures a == b
  {
    if a != [] && b != [] {
      LexAntisymmetric(a[1..], b[1..], rank);
      assert a == [a[0]] + a[1..] && b == [b[0]] + b[1..];
    }
  }
}
