/** Blocking lists over numbered items, `need(v, a)` meaning that v is a or requires it. */
module Blocking {
  import opened Sorting

  type Need = (nat, nat) -> bool

  /** Needing is a partial order on 0..n, and everything needs the bottom item n. */
  ghost predicate PartialOrder(need: Need, n: nat) {
    && (forall v: nat | v <= n :: need(v, v) && need(v, n))
    && (forall u: nat, v: nat, w: nat | need(u, v) && need(v, w) :: need(u, w))
    && forall u: nat, v: nat | need(u, v) && need(v, u) :: u == v
  }

  /** What v needs that comes before x and itself needs x. */
  predicate Candidate(need: Need, v: nat, x: nat, a: nat) {
    a < x && need(v, a) && need(a, x)
  }

  function Latest(need: Need, v: nat, x: nat, k: nat): (y: nat)
    requires v < k <= x && Candidate(need, v, x, v)
    ensures v <= y < k && Candidate(need, v, x, y) && forall a | y < a < k :: !Candidate(need, v, x, a)
  {
    if Candidate(need, v, x, k - 1) then k - 1 else Latest(need, v, x, k - 1)
  }

  /** What holds v back: the last item it needs above x, then the last between that and v, and so on down to v. */
  function Blockers(need: Need, v: nat, x: nat): (b: seq<int>)
    requires Candidate(need, v, x, v)
    ensures b != [] && b[|b| - 1] == v && (forall i | 0 <= i < |b| :: b[i] < x) && Falling(b)
    decreases x
  {
    var y := Latest(need, v, x, x);
    if y == v then [v] else [y] + Blockers(need, v, y)
  }

  predicate Falling(k: seq<int>) {
    forall i, j | 0 <= i < j < |k| :: k[i] > k[j]
  }

  predicate Before(a: seq<int>, b: seq<int>) {
    a != b && LexLeq(a, b, i => i)
  }

  lemma {:induction false} BeforeTransitive(a: seq<int>, b: seq<int>, c: seq<int>)
    requires Before(a, b) && Before(b, c)
    ensures Before(a, c)
  {
    LexTransitive(a, b, c, i => i);
    if a == c { LexAntisymmetric(a, b, i => i); }
  }

  lemma {:induction false} BeforeOneWay(a: seq<int>, b: seq<int>)
    requires Before(a, b)
    ensures !Before(b, a)
  {
    if Before(b, a) { LexAntisymmetric(a, b, i => i); }
  }

  lemma {:induction false} BeforeCons(i: int, a: seq<int>, b: seq<int>)
    requires Before(a, b)
    ensures Before([i] + a, [i] + b)
  {
    var s, t := [i] + a, [i] + b;
    assert s[0] == t[0] == i && s[1..] == a && t[1..] == b;
  }

  lemma {:induction false} BeforeExtended(i: int, rest: seq<int>)
    requires rest != []
    ensures Before([i], [i] + rest)
  {
    var t := [i] + rest;
    assert t[0] == i && [i][1..] == [] && |t| > 1;
  }

  lemma {:induction false} LatestGrows(need: Need, n: nat, v: nat, d: nat, x: nat)
    requires PartialOrder(need, n) && need(v, d) && Candidate(need, v, x, v) && Candidate(need, d, x, d)
    ensures Latest(need, d, x, x) <= Latest(need, v, x, x)
  {
    var y := Latest(need, d, x, x);
    assert need(v, d) && need(d, y);
    assert Candidate(need, v, x, y);
  }

  /** Needing an item means being held back by more. */
  lemma {:induction false} BlockersGrow(need: Need, n: nat, v: nat, d: nat, x: nat)
    requires PartialOrder(need, n) && need(v, d) && v != d && Candidate(need, v, x, v) && Candidate(need, d, x, d)
    ensures Before(Blockers(need, d, x), Blockers(need, v, x))
    decreases x
  {
    LatestGrows(need, n, v, d, x);
    var y := Latest(need, d, x, x);
    if y == Latest(need, v, x, x) {
      if y == d {
        BeforeExtended(y, Blockers(need, v, y));
      } else {
        BlockersGrow(need, n, v, d, y);
        BeforeCons(y, Blockers(need, d, y), Blockers(need, v, y));
      }
    }
  }

  /** Whatever holds v back last has the same blockers as v, without v. */
  lemma {:induction false} LastBlocker(need: Need, n: nat, v: nat, x: nat) returns (c: nat)
    requires PartialOrder(need, n) && x <= n && Candidate(need, v, x, v) && |Blockers(need, v, x)| > 1
    ensures c < x && need(v, c) && c != v && Candidate(need, c, x, c)
    ensures Blockers(need, v, x) == Blockers(need, c, x) + [v]
    decreases x
  {
    var y := Latest(need, v, x, x);
    if |Blockers(need, v, y)| == 1 {
      c := y;
      assert Blockers(need, v, y) == [v];
    } else {
      c := LastBlocker(need, n, v, y);
      assert need(c, y) && need(y, x);
      assert [y] + (Blockers(need, c, y) + [v]) == ([y] + Blockers(need, c, y)) + [v];
    }
    LatestGrows(need, n, v, c, x);
    assert Candidate(need, c, x, y);
  }

  /** Strictly between a list and the same list extended by u, only smaller numbers follow. */
  lemma {:induction false} Between(front: seq<int>, k: seq<int>, u: int)
    requires Before(front, k) && Before(k, front + [u]) && Falling(k)
    ensures k[|k| - 1] < u
  {
    var t := front + [u];
    if front == [] {
      assert t == [u] && t[1..] == [];
      if |k| > 1 { assert k[1] < k[0]; }
      assert k == [k[0]] + k[1..];
    } else {
      assert k[0] == front[0] == t[0];
      assert t[1..] == front[1..] + [u];
      assert k == [k[0]] + k[1..] && front == [front[0]] + front[1..] && t == [t[0]] + t[1..];
      Between(front[1..], k[1..], u);
    }
  }

  function Key(need: Need, n: nat, v: nat): seq<int> {
    if Candidate(need, v, n, v) then Blockers(need, v, n) else []
  }

  lemma {:induction false} KeyShape(need: Need, n: nat, v: nat)
    requires PartialOrder(need, n) && v < n
    ensures Candidate(need, v, n, v) && Key(need, n, v) == Blockers(need, v, n)
  {
  }

  /** The front of a key belongs to something needed. */
  lemma {:induction false} KeyFront(need: Need, n: nat, u: nat) returns (front: seq<int>)
    requires PartialOrder(need, n) && u < n
    ensures Key(need, n, u) == front + [u]
    ensures front == [] || exists c: nat | c < n && need(u, c) && c != u :: front == Key(need, n, c)
  {
    KeyShape(need, n, u);
    if |Blockers(need, u, n)| == 1 {
      front := [];
    } else {
      var c := LastBlocker(need, n, u, n);
      KeyShape(need, n, c);
      front := Key(need, n, c);
    }
  }

  lemma {:induction false} BeforeNonempty(k: seq<int>)
    requires k != []
    ensures Before([], k)
  {
  }

  /** Once everything u needs is done, any item with smaller blockers also comes first by number. */
  lemma {:induction false} SmallerBlockersFirst(need: Need, n: nat, u: nat, v: nat)
    requires PartialOrder(need, n) && u < n && v < n && Before(Key(need, n, v), Key(need, n, u))
    requires forall c: nat | c < n && need(u, c) && c != u :: Before(Key(need, n, c), Key(need, n, v))
    ensures v < u
  {
    var front := KeyFront(need, n, u);
    KeyShape(need, n, v);
    if front == [] { BeforeNonempty(Key(need, n, v)); }
    Between(front, Key(need, n, v), u);
  }
}

/**
 * How the least dependency order relates to declaration order: a package comes before another
 * exactly when its blockers, compared by declaration index, come first.
 */
module DeclarationOrder {
  import opened Blocking
  import opened Dag
  import opened PublishPlan
  import opened PublishWaves
  import opened Sorting
  import opened Wrappers

  // ---- Needed packages ----

  /** v is a, or depends on it directly or through others. */
  ghost predicate Needs(g: Graph, v: Name, a: Name) {
    exists c :: Chain(g, c) && c[0] == v && c[|c| - 1] == a
  }

  lemma {:induction false} NeedsSelf(g: Graph, v: Name)
    requires v in g.deps
    ensures Needs(g, v, v)
  {
    assert Chain(g, [v]) && [v][|[v]| - 1] == v;
  }

  lemma {:induction false} NeedsDependency(g: Graph, v: Name, d: Name)
    requires v in g.deps && d in g.deps && d in g.deps[v]
    ensures Needs(g, v, d)
  {
    assert Chain(g, [v, d]) && [v, d][|[v, d]| - 1] == d;
  }

  lemma {:induction false} NeedsIsTransitive(g: Graph, u: Name, v: Name, w: Name)
    requires Needs(g, u, v) && Needs(g, v, w)
    ensures Needs(g, u, w)
  {
    var a :| Chain(g, a) && a[0] == u && a[|a| - 1] == v;
    var b :| Chain(g, b) && b[0] == v && b[|b| - 1] == w;
    var c := a + b[1..];
    forall i | 0 <= i < |c| - 1
      ensures c[i + 1] in g.deps[c[i]]
    {
      if i < |a| - 1 { assert a[i + 1] in g.deps[a[i]]; } else { assert b[(i + 1 - |a|) + 1] in g.deps[b[i + 1 - |a|]]; }
    }
    assert Chain(g, c) && c[|c| - 1] == w;
  }

  lemma {:induction false} NeedsIsAntisymmetric(g: Graph, p: seq<Name>, v: Name, a: Name)
    requires Topological(g, p) && Needs(g, v, a) && Needs(g, a, v)
    ensures v == a
  {
    var c :| Chain(g, c) && c[0] == v && c[|c| - 1] == a;
    var d :| Chain(g, d) && d[0] == a && d[|d| - 1] == v;
    ChainMovesBack(g, p, c, |c| - 1);
    ChainMovesBack(g, p, d, |d| - 1);
  }

  /** The same relation between declaration indices, with a bottom item everything needs. */
  ghost function NeedOf(g: Graph): Need {
    var n := |g.order|;
    (v: nat, a: nat) => (a == n && v <= n) || (v < n && a < n && Needs(g, g.order[v], g.order[a]))
  }

  lemma {:induction false} NeedIsPartialOrder(g: Graph, p: seq<Name>)
    requires g.WellFormed() && Topological(g, p)
    ensures PartialOrder(NeedOf(g), |g.order|)
  {
    var need, n := NeedOf(g), |g.order|;
    forall v: nat | v <= n
      ensures need(v, v) && need(v, n)
    {
      if v < n { NeedsSelf(g, g.order[v]); }
    }
    forall u: nat, v: nat, w: nat | need(u, v) && need(v, w)
      ensures need(u, w)
    {
      if w < n { NeedsIsTransitive(g, g.order[u], g.order[v], g.order[w]); }
    }
    forall u: nat, v: nat | need(u, v) && need(v, u)
      ensures u == v
    {
      if u < n && v < n { NeedsIsAntisymmetric(g, p, g.order[u], g.order[v]); }
    }
  }

  /** Declaration indices of what holds a package back, ending with its own. */
  ghost function BlockersOf(g: Graph, m: Name): seq<int> {
    if m in g.order then Key(NeedOf(g), |g.order|, g.Index(m)) else []
  }

  ghost function BlockedLeq(g: Graph): (Name, Name) -> bool {
    (a, b) => LexLeq(BlockersOf(g, a), BlockersOf(g, b), i => i)
  }

  lemma {:induction false} BlockedLeqIsTotal(g: Graph)
    ensures TotalPreorder(BlockedLeq(g))
  {
    var leq := BlockedLeq(g);
    forall a, b
      ensures leq(a, b) || leq(b, a)
    {
      LexTotal(BlockersOf(g, a), BlockersOf(g, b), i => i);
    }
    forall a, b, c | leq(a, b) && leq(b, c)
      ensures leq(a, c)
    {
      LexTransitive(BlockersOf(g, a), BlockersOf(g, b), BlockersOf(g, c), i => i);
    }
  }

  lemma {:induction false} BlockersDistinct(g: Graph, a: Name, b: Name)
    requires PartialOrder(NeedOf(g), |g.order|) && a in g.order && b in g.order
    requires BlockersOf(g, a) == BlockersOf(g, b)
    ensures a == b
  {
    var need, n := NeedOf(g), |g.order|;
    assert Candidate(need, g.Index(a), n, g.Index(a)) && Candidate(need, g.Index(b), n, g.Index(b));
    assert g.order[g.Index(a)] == g.order[g.Index(b)];
  }

  lemma {:induction false} DependencyBlockers(g: Graph, v: Name, d: Name)
    requires g.WellFormed() && PartialOrder(NeedOf(g), |g.order|) && v in g.deps && d in g.order && Needs(g, v, d) && v != d
    ensures Before(BlockersOf(g, d), BlockersOf(g, v))
  {
    BlockersGrow(NeedOf(g), |g.order|, g.Index(v), g.Index(d), |g.order|);
  }

  /** All packages, those with smaller blockers first. */
  ghost predicate ByBlockers(g: Graph, q: seq<Name>) {
    && Elems(q) == g.deps.Keys
    && forall i, j | 0 <= i < j < |q| :: Before(BlockersOf(g, q[i]), BlockersOf(g, q[j]))
  }

  lemma {:induction false} SortedByBlockers(g: Graph) returns (q: seq<Name>)
    requires g.WellFormed() && PartialOrder(NeedOf(g), |g.order|)
    ensures ByBlockers(g, q) && |q| == |g.order|
  {
    var leq, id := BlockedLeq(g), (m: Name) => m;
    q := Sort(g.order, leq);
    BlockedLeqIsTotal(g);
    SortSorts(g.order, leq);
    SortPermutes(g.order, leq);
    MembersFromMultiset(q, g.order);
    assert DistinctBy(g.order, id);
    SortDistinct(g.order, leq, id);
    forall i, j | 0 <= i < j < |q|
      ensures Before(BlockersOf(g, q[i]), BlockersOf(g, q[j]))
    {
      assert q[i] in q && q[j] in q && leq(q[i], q[j]) && id(q[i]) != id(q[j]);
      if BlockersOf(g, q[i]) == BlockersOf(g, q[j]) { BlockersDistinct(g, q[i], q[j]); }
    }
  }

  lemma {:induction false} EarlierByBlockers(g: Graph, q: seq<Name>, k: nat, d: Name)
    requires ByBlockers(g, q) && k < |q| && d in g.deps && Before(BlockersOf(g, d), BlockersOf(g, q[k]))
    ensures d in Elems(q[..k])
  {
    hide Before, BlockersOf;
    assert d in Elems(q);
    var j :| 0 <= j < |q| && q[j] == d;
    if k <= j { BeforeOneWay(BlockersOf(g, q[k]), BlockersOf(g, q[j])); }
    assert q[..k][j] == d;
  }

  lemma {:induction false} NeedsThrough(g: Graph, m: Name, c: Name) returns (d: Name)
    requires Needs(g, m, c) && c != m
    ensures m in g.deps && d in g.deps[m] && Needs(g, d, c)
  {
    var chain :| Chain(g, chain) && chain[0] == m && chain[|chain| - 1] == c;
    d := chain[0 + 1];
    var rest := chain[1..];
    forall i | 0 <= i < |rest| - 1
      ensures rest[i + 1] in g.deps[rest[i]]
    {
      assert chain[(i + 1) + 1] in g.deps[chain[i + 1]];
    }
    assert Chain(g, rest) && rest[|rest| - 1] == c;
  }

  /** Whatever an available package needs has smaller blockers than the package picked next. */
  lemma {:induction false} NeededIsDone(g: Graph, q: seq<Name>, k: nat, m: Name, c: Name)
    requires g.WellFormed() && PartialOrder(NeedOf(g), |g.order|) && ByBlockers(g, q) && k < |q|
    requires Available(g, Elems(q[..k]), m) && c in g.order && Needs(g, m, c) && c != m
    ensures Before(BlockersOf(g, c), BlockersOf(g, q[k]))
  {
    var d := NeedsThrough(g, m, c);
    assert d in q[..k];
    var j :| 0 <= j < k && q[..k][j] == d;
    assert q[j] == d;
    if c != d {
      DependencyBlockers(g, d, c);
      BeforeTransitive(BlockersOf(g, c), BlockersOf(g, d), BlockersOf(g, q[k]));
    }
  }

  lemma {:induction false} PickIsLeast(g: Graph, q: seq<Name>, k: nat, m: Name)
    requires g.WellFormed() && PartialOrder(NeedOf(g), |g.order|) && ByBlockers(g, q) && k < |q|
    requires Available(g, Elems(q[..k]), m) && q[k] in g.order && m != q[k]
    ensures g.Index(q[k]) < g.Index(m)
  {
    var need, n := NeedOf(g), |g.order|;
    assert m in Elems(q);
    var j :| 0 <= j < |q| && q[j] == m;
    assert j >= k;
    forall c: nat | c < n && need(g.Index(m), c) && c != g.Index(m)
      ensures Before(Key(need, n, c), Key(need, n, g.Index(q[k])))
    {
      assert g.order[c] != m && g.Index(g.order[c]) == c;
      NeededIsDone(g, q, k, m, g.order[c]);
    }
    SmallerBlockersFirst(need, n, g.Index(m), g.Index(q[k]));
  }

  lemma {:induction false} ByBlockersIsGreedy(g: Graph, p: seq<Name>, q: seq<Name>)
    requires g.WellFormed() && Topological(g, p) && PartialOrder(NeedOf(g), |g.order|) && ByBlockers(g, q)
    ensures Greedy(g, q)
  {
    forall k | 0 <= k < |q|
      ensures LeastAvailable(g, Elems(q[..k]), q[k])
    {
      assert q[k] in Elems(q);
      PickIsAvailable(g, p, q, k);
      forall m | Available(g, Elems(q[..k]), m)
        ensures g.Index(q[k]) <= g.Index(m)
      {
        if m != q[k] { PickIsLeast(g, q, k, m); }
      }
    }
  }

  lemma {:induction false} PickIsAvailable(g: Graph, p: seq<Name>, q: seq<Name>, k: nat)
    requires g.WellFormed() && Topological(g, p) && PartialOrder(NeedOf(g), |g.order|) && ByBlockers(g, q)
    requires k < |q| && q[k] in g.deps
    ensures Available(g, Elems(q[..k]), q[k])
  {
    forall d | d in g.deps[q[k]]
      ensures d in Elems(q[..k])
    {
      assert q[k] in Elems(p);
      DependencyFirst(g, p, q[k], d);
      NeedsDependency(g, q[k], d);
      DependencyBlockers(g, q[k], d);
      EarlierByBlockers(g, q, k, d);
    }
    assert q[k] !in q[..k];
  }

  lemma {:induction false} LeastOrderUnique(g: Graph, p: seq<Name>, q: seq<Name>)
    requires LeastOrder(g, p) && LeastOrder(g, q)
    ensures p == q
  {
    if p != q {
      var i :| 0 <= i < |p| && i < |q| && p[..i] == q[..i] && g.Index(p[i]) < g.Index(q[i]);
      var j :| 0 <= j < |p| && j < |q| && q[..j] == p[..j] && g.Index(q[j]) < g.Index(p[j]);
      SamePrefix(p, q, i, j);
    }
  }

  lemma {:induction false} SamePrefix(p: seq<Name>, q: seq<Name>, i: nat, j: nat)
    requires i < |p| && i < |q| && j < |p| && j < |q| && p[..i] == q[..i] && q[..j] == p[..j]
    ensures p[i] == q[i] || p[j] == q[j] || i == j
  {
    if i < j { assert p[i] == p[..j][i]; } else if j < i { assert p[j] == p[..i][j]; }
  }

  /** The plan lists packages by their blockers. */
  lemma {:induction false} PlanIsByBlockers(g: Graph, p: seq<Name>)
    requires LeastOrder(g, p)
    ensures ByBlockers(g, p)
  {
    NeedIsPartialOrder(g, p);
    var q := SortedByBlockers(g);
    ByBlockersIsGreedy(g, p, q);
    CompleteVerdict(g, q);
    LeastOrderUnique(g, p, q);
  }

  /** One package is planned before another exactly when its blockers come first. */
  lemma {:induction false} PlanOrderIff(g: Graph, p: seq<Name>, i: nat, j: nat)
    requires LeastOrder(g, p) && i < |p| && j < |p|
    ensures i < j <==> Before(BlockersOf(g, p[i]), BlockersOf(g, p[j]))
  {
    PlanIsByBlockers(g, p);
    if j < i { BeforeOneWay(BlockersOf(g, p[j]), BlockersOf(g, p[i])); }
  }

  ghost predicate DeclarationSorted(g: Graph, ns: seq<Name>) {
    forall i, j | 0 <= i < j < |ns| :: ns[i] in g.order && ns[j] in g.order && g.Index(ns[i]) < g.Index(ns[j])
  }

  /** Within every wave, declaration order. */
  ghost predicate WavesInDeclarationOrder(g: Graph, waves: seq<seq<Name>>) {
    forall w | 0 <= w < |waves| :: DeclarationSorted(g, waves[w])
  }

  /** Of two packages with equally long dependency chains, the one declared first has the smaller blockers. */
  ghost predicate BlockersFollowDeclaration(g: Graph, wave: map<Name, nat>)
    requires wave.Keys == Elems(g.order)
  {
    forall a, b | a in wave && b in wave && wave[a] == wave[b] && g.Index(a) < g.Index(b) ::
      Before(BlockersOf(g, a), BlockersOf(g, b))
  }

  lemma {:induction false} SameWaveOrder(g: Graph, p: seq<Name>, wave: map<Name, nat>, waves: seq<seq<Name>>, w: nat, i: nat, j: nat)
    requires ByBlockers(g, p) && Grouped(p, wave, waves) && w < |waves| && i < j < |waves[w]|
    ensures Before(BlockersOf(g, waves[w][i]), BlockersOf(g, waves[w][j]))
  {
    var x, y := FilteredFrom(p, InWave(wave, w), i, j);
  }

  /** Two packages of one wave stand in it in the order of their blockers. */
  lemma {:induction false} WaveOrder(g: Graph, p: seq<Name>, wave: map<Name, nat>, waves: seq<seq<Name>>, a: Name, b: Name) returns (i: nat, j: nat)
    requires ByBlockers(g, p) && Grouped(p, wave, waves)
    requires a in wave && b in wave && wave[a] == wave[b] && a != b
    ensures i < |waves[wave[a]]| && j < |waves[wave[a]]| && waves[wave[a]][i] == a && waves[wave[a]][j] == b
    ensures i < j ==> Before(BlockersOf(g, a), BlockersOf(g, b))
  {
    WavesPartition(p, wave, waves);
    var ns := waves[wave[a]];
    assert a in Elems(p) && b in Elems(p);
    assert a in ns && b in ns;
    i :| 0 <= i < |ns| && ns[i] == a;
    j :| 0 <= j < |ns| && ns[j] == b;
    if i < j { SameWaveOrder(g, p, wave, waves, wave[a], i, j); }
  }

  lemma {:induction false} PositionsByDeclaration(g: Graph, ns: seq<Name>, i: nat, j: nat)
    requires DeclarationSorted(g, ns) && i < |ns| && j < |ns| && ns[i] in g.order && ns[j] in g.order
    requires g.Index(ns[i]) < g.Index(ns[j])
    ensures i < j
  {
  }

  lemma {:induction false} DeclaredFirstHasSmallerBlockers(g: Graph, p: seq<Name>, wave: map<Name, nat>, waves: seq<seq<Name>>, a: Name, b: Name)
    requires ByBlockers(g, p) && Grouped(p, wave, waves) && a in g.order && b in g.order
    requires a in wave && b in wave && wave[a] == wave[b] && g.Index(a) < g.Index(b)
    requires DeclarationSorted(g, waves[wave[a]])
    ensures Before(BlockersOf(g, a), BlockersOf(g, b))
  {
    var i, j := WaveOrder(g, p, wave, waves, a, b);
    PositionsByDeclaration(g, waves[wave[a]], i, j);
  }

  lemma {:induction false} PairInDeclarationOrder(g: Graph, p: seq<Name>, wave: map<Name, nat>, waves: seq<seq<Name>>, w: nat, i: nat, j: nat)
    requires ByBlockers(g, p) && Grouped(p, wave, waves) && wave.Keys == Elems(g.order)
    requires BlockersFollowDeclaration(g, wave) && w < |waves| && i < j < |waves[w]|
    ensures waves[w][i] in g.order && waves[w][j] in g.order && g.Index(waves[w][i]) < g.Index(waves[w][j])
  {
    hide ByBlockers, BlockersOf, Before, Filter;
    var a, b := waves[w][i], waves[w][j];
    SameWaveOrder(g, p, wave, waves, w, i, j);
    BeforeOneWay(BlockersOf(g, a), BlockersOf(g, b));
    assert a in Filter(p, InWave(wave, w)) && b in Filter(p, InWave(wave, w));
    assert g.order[g.Index(a)] == a && g.order[g.Index(b)] == b;
  }

  lemma {:induction false} BlockersGiveDeclarationOrder(g: Graph, p: seq<Name>, wave: map<Name, nat>, waves: seq<seq<Name>>, w: nat)
    requires ByBlockers(g, p) && Grouped(p, wave, waves) && wave.Keys == Elems(g.order)
    requires BlockersFollowDeclaration(g, wave) && w < |waves|
    ensures DeclarationSorted(g, waves[w])
  {
    forall i, j | 0 <= i < j < |waves[w]|
      ensures waves[w][i] in g.order && waves[w][j] in g.order && g.Index(waves[w][i]) < g.Index(waves[w][j])
    {
      PairInDeclarationOrder(g, p, wave, waves, w, i, j);
    }
  }

  lemma {:induction false} ByBlockersWaves(g: Graph, p: seq<Name>, wave: map<Name, nat>, waves: seq<seq<Name>>)
    requires ByBlockers(g, p) && Grouped(p, wave, waves) && wave.Keys == Elems(g.order)
    ensures WavesInDeclarationOrder(g, waves) <==> BlockersFollowDeclaration(g, wave)
  {
    if WavesInDeclarationOrder(g, waves) {
      forall a, b | a in wave && b in wave && wave[a] == wave[b] && g.Index(a) < g.Index(b)
        ensures Before(BlockersOf(g, a), BlockersOf(g, b))
      {
        DeclaredFirstHasSmallerBlockers(g, p, wave, waves, a, b);
      }
    }
    if BlockersFollowDeclaration(g, wave) {
      forall w | 0 <= w < |waves|
        ensures DeclarationSorted(g, waves[w])
      {
        BlockersGiveDeclarationOrder(g, p, wave, waves, w);
      }
    }
  }

  /** Waves are in declaration order exactly when blockers follow it. */
  lemma {:induction false} WavesInDeclarationOrderIff(g: Graph, p: seq<Name>, wave: map<Name, nat>, waves: seq<seq<Name>>)
    requires LeastOrder(g, p) && Grouped(p, wave, waves)
    ensures wave.Keys == Elems(g.order)
    ensures WavesInDeclarationOrder(g, waves) <==> BlockersFollowDeclaration(g, wave)
  {
    PlanIsByBlockers(g, p);
    OrderElems(g);
    ByBlockersWaves(g, p, wave, waves);
  }

  lemma {:induction false} OrderElems(g: Graph)
    requires g.WellFormed()
    ensures Elems(g.order) == g.deps.Keys
  {
  }

  lemma {:induction false} DeclarationIsGreedy(g: Graph)
    requires g.WellFormed() && Topological(g, g.order)
    ensures Greedy(g, g.order)
  {
    forall k | 0 <= k < |g.order|
      ensures LeastAvailable(g, Elems(g.order[..k]), g.order[k])
    {
      TopologicalAvailable(g, g.order, k);
      assert g.Index(g.order[k]) == k;
      forall m | Available(g, Elems(g.order[..k]), m)
        ensures k <= g.Index(m)
      {
        assert g.order[g.Index(m)] == m;
      }
    }
  }

  /** The plan is the declaration order itself exactly when every dependency is declared first. */
  lemma {:induction false} PlanIsDeclarationOrderIff(g: Graph, p: seq<Name>)
    requires LeastOrder(g, p)
    ensures p == g.order <==> Topological(g, g.order)
  {
    if Topological(g, g.order) {
      DeclarationIsGreedy(g);
      CompleteVerdict(g, g.order);
      LeastOrderUnique(g, p, g.order);
    }
  }

  // ---- A wave out of declaration order ----

  /** Declared a, b, c, d, where a needs d and b needs c. */
  function Crossed(a: Name, b: Name, c: Name, d: Name): Graph {
    Graph([a, b, c, d], map[a := {d}, b := {c}, c := {}, d := {}])
  }

  ghost predicate AllDistinct(a: Name, b: Name, c: Name, d: Name) {
    a != b && a != c && a != d && b != c && b != d && c != d
  }

  lemma {:induction false} CrossedIndex(a: Name, b: Name, c: Name, d: Name)
    requires AllDistinct(a, b, c, d)
    ensures var g := Crossed(a, b, c, d);
            g.WellFormed() && g.Index(a) == 0 && g.Index(b) == 1 && g.Index(c) == 2 && g.Index(d) == 3
  {
    var g := Crossed(a, b, c, d);
    assert g.order[0] == a && g.order[1] == b && g.order[2] == c && g.order[3] == d;
  }

  lemma {:induction false} CrossedLeast(g: Graph, a: Name, b: Name, c: Name, d: Name)
    requires AllDistinct(a, b, c, d) && g.WellFormed() && g.deps == map[a := {d}, b := {c}, c := {}, d := {}]
    requires g.Index(a) == 0 && g.Index(b) == 1 && g.Index(c) == 2 && g.Index(d) == 3
    ensures LeastAvailable(g, {}, c) && LeastAvailable(g, {c}, b) && LeastAvailable(g, {c, b}, d) && LeastAvailable(g, {c, b, d}, a)
  {
    hide IndexIn;
  }

  lemma {:induction false} CrossedGreedy(g: Graph, a: Name, b: Name, c: Name, d: Name)
    requires AllDistinct(a, b, c, d) && g.WellFormed() && g.deps == map[a := {d}, b := {c}, c := {}, d := {}]
    requires g.Index(a) == 0 && g.Index(b) == 1 && g.Index(c) == 2 && g.Index(d) == 3
    ensures Greedy(g, [c, b, d, a])
  {
    hide IndexIn;
    var p := [c, b, d, a];
    assert p[..1] == [c] && p[..2] == [c, b] && p[..3] == [c, b, d];
    CrossedLeast(g, a, b, c, d);
    assert Elems(p[..0]) == {} && Elems(p[..1]) == {c} && Elems(p[..2]) == {c, b} && Elems(p[..3]) == {c, b, d};
    hide LeastAvailable, Elems;
  }

  lemma {:induction false} CrossedPlan(a: Name, b: Name, c: Name, d: Name)
    requires AllDistinct(a, b, c, d)
    ensures LeastOrder(Crossed(a, b, c, d), [c, b, d, a])
  {
    CrossedIndex(a, b, c, d);
    CrossedGreedy(Crossed(a, b, c, d), a, b, c, d);
    CompleteVerdict(Crossed(a, b, c, d), [c, b, d, a]);
  }

  lemma {:induction false} CrossedWaves(a: Name, b: Name, c: Name, d: Name, wave: map<Name, nat>)
    requires AllDistinct(a, b, c, d) && Layered(Crossed(a, b, c, d), wave)
    ensures wave == map[a := 1, b := 1, c := 0, d := 0]
  {
    var g := Crossed(a, b, c, d);
    assert Layer(g, wave, a) && Layer(g, wave, b) && Layer(g, wave, c) && Layer(g, wave, d);
  }

  lemma {:induction false} FilterFour(w: Name, x: Name, y: Name, z: Name, f: Name -> bool)
    requires !f(w) && f(x) && !f(y) && f(z)
    ensures Filter([w, x, y, z], f) == [x, z]
  {
    assert [w, x, y, z][1..] == [x, y, z] && [x, y, z][1..] == [y, z] && [y, z][1..] == [z] && [z][1..] == [];
    assert Filter([z], f) == [z] + Filter([], f);
    assert Filter([y, z], f) == Filter([z], f);
    assert Filter([x, y, z], f) == [x] + Filter([y, z], f);
  }

  lemma {:induction false} CrossedSecondWave(a: Name, b: Name, c: Name, d: Name, wave: map<Name, nat>)
    requires AllDistinct(a, b, c, d) && wave == map[a := 1, b := 1, c := 0, d := 0]
    ensures Filter([c, b, d, a], InWave(wave, 1)) == [b, a]
  {
    var f := InWave(wave, 1);
    FilterFour(c, b, d, a, f);
    assert !f(c) && f(b) && !f(d) && f(a);
  }

  /** The plan's second wave is b, a although a is declared before b. */
  lemma {:induction false} WavesCanLeaveDeclarationOrder(a: Name, b: Name, c: Name, d: Name, wave: map<Name, nat>, waves: seq<seq<Name>>)
    requires AllDistinct(a, b, c, d)
    requires Layered(Crossed(a, b, c, d), wave) && Grouped([c, b, d, a], wave, waves)
    ensures LeastOrder(Crossed(a, b, c, d), [c, b, d, a])
    ensures |waves| > 1 && waves[1] == [b, a] && Crossed(a, b, c, d).Index(a) < Crossed(a, b, c, d).Index(b)
  {
    CrossedWaves(a, b, c, d, wave);
    CrossedSecondWave(a, b, c, d, wave);
    CrossedIndex(a, b, c, d);
    assert wave[a] == 1;
    CrossedPlan(a, b, c, d);
  }
}
