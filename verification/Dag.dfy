/** Dependency graphs with a declaration order: topological orders, cycles, layers. */
module Dag {

  /** A package name; only equality matters. */
  datatype Name = Name(text: string)

  /** Nodes in declaration order and the nodes each one depends on. */
  datatype Graph = Graph(order: seq<Name>, deps: map<Name, set<Name>>) {

    ghost predicate WellFormed() {
      && (forall i, j | 0 <= i < j < |order| :: order[i] != order[j])
      && (forall n :: n in deps <==> n in order)
      && (forall n | n in deps :: deps[n] <= deps.Keys)
    }

    /** Declaration index. */
    function Index(n: Name): (i: nat)
      requires n in order
      ensures i < |order| && order[i] == n
    {
      IndexIn(order, n)
    }
  }

  function IndexIn(s: seq<Name>, n: Name): (i: nat)
    requires n in s
    ensures i < |s| && s[i] == n && forall j | 0 <= j < i :: s[j] != n
  {
    if s[0] == n then 0
    else
      assert s == [s[0]] + s[1..];
      1 + IndexIn(s[1..], n)
  }

  function Elems(s: seq<Name>): set<Name> {
    set n | n in s
  }

  ghost predicate Distinct(s: seq<Name>) {
    forall i, j | 0 <= i < j < |s| :: s[i] != s[j]
  }

  /** n can be taken next once `done` has been taken. */
  predicate Available(g: Graph, done: set<Name>, n: Name) {
    n in g.deps && n !in done && g.deps[n] <= done
  }

  /** An arrangement of all nodes in which every dependency comes first. */
  ghost predicate Topological(g: Graph, p: seq<Name>) {
    && Distinct(p) && Elems(p) == g.deps.Keys
    && forall i | 0 <= i < |p| :: g.deps[p[i]] <= Elems(p[..i])
  }

  ghost predicate LeastAvailable(g: Graph, done: set<Name>, n: Name)
    requires g.WellFormed()
  {
    Available(g, done, n) && forall m | Available(g, done, m) :: g.Index(n) <= g.Index(m)
  }

  /** Each element is the first declared one among those available after its predecessors. */
  ghost predicate Greedy(g: Graph, p: seq<Name>)
    requires g.WellFormed()
  {
    forall k | 0 <= k < |p| :: LeastAvailable(g, Elems(p[..k]), p[k])
  }

  ghost predicate Stuck(g: Graph, done: set<Name>) {
    forall n :: !Available(g, done, n)
  }

  ghost predicate Cycle(g: Graph, c: seq<Name>) {
    && c != [] && (forall i | 0 <= i < |c| :: c[i] in g.deps)
    && (forall i | 0 <= i < |c| - 1 :: c[i + 1] in g.deps[c[i]])
    && c[0] in g.deps[c[|c| - 1]]
  }

  // ---- A complete greedy order is topological ----

  lemma {:induction false} GreedyIsDistinct(g: Graph, p: seq<Name>)
    requires g.WellFormed() && Greedy(g, p)
    ensures Distinct(p) && Elems(p) <= g.deps.Keys
  {
    forall i, j | 0 <= i < j < |p|
      ensures p[i] != p[j]
    {
      assert LeastAvailable(g, Elems(p[..j]), p[j]);
      assert p[i] in p[..j];
    }
    forall n | n in Elems(p)
      ensures n in g.deps
    {
      var k :| 0 <= k < |p| && p[k] == n;
      assert LeastAvailable(g, Elems(p[..k]), p[k]);
    }
  }

  lemma {:induction false} DistinctSize(s: seq<Name>)
    requires Distinct(s)
    ensures |Elems(s)| == |s|
  {
    if s != [] {
      var n := |s| - 1;
      DistinctSize(s[..n]);
      assert s == s[..n] + [s[n]];
      assert Elems(s) == Elems(s[..n]) + {s[n]};
      assert s[n] !in Elems(s[..n]);
    }
  }

  lemma {:induction false} SubsetSameSize(a: set<Name>, b: set<Name>)
    requires a <= b && |a| >= |b|
    ensures a == b
  {
    assert |b - a| == |b| - |a|;
  }

  lemma {:induction false} GreedyCompleteIsTopological(g: Graph, p: seq<Name>)
    requires g.WellFormed() && Greedy(g, p) && |p| == |g.order|
    ensures Topological(g, p)
  {
    GreedyIsDistinct(g, p);
    DistinctSize(p);
    DistinctSize(g.order);
    assert Elems(g.order) == g.deps.Keys;
    SubsetSameSize(Elems(p), g.deps.Keys);
    forall i | 0 <= i < |p|
      ensures g.deps[p[i]] <= Elems(p[..i])
    {
      assert LeastAvailable(g, Elems(p[..i]), p[i]);
    }
  }

  // ---- ... and the least one in declaration order ----

  /** Comparison of two arrangements by declaration index, first difference first. */
  ghost predicate DeclaredLeq(g: Graph, p: seq<Name>, q: seq<Name>)
    requires (forall n | n in p :: n in g.order) && (forall n | n in q :: n in g.order)
  {
    p == q || exists k | 0 <= k < |p| && k < |q| :: p[..k] == q[..k] && g.Index(p[k]) < g.Index(q[k])
  }

  function FirstDifference(p: seq<Name>, q: seq<Name>): (k: nat)
    requires |p| == |q| && p != q
    ensures k < |p| && p[..k] == q[..k] && p[k] != q[k]
  {
    if p[0] != q[0] then 0
    else
      assert p == [p[0]] + p[1..] && q == [q[0]] + q[1..];
      var k := FirstDifference(p[1..], q[1..]);
      assert p[..k + 1] == [p[0]] + p[1..][..k] && q[..k + 1] == [q[0]] + q[1..][..k];
      k + 1
  }

  lemma {:induction false} TopologicalSize(g: Graph, q: seq<Name>)
    requires g.WellFormed() && Topological(g, q)
    ensures |q| == |g.order|
  {
    DistinctSize(q);
    DistinctSize(g.order);
    assert Elems(g.order) == g.deps.Keys;
  }

  lemma {:induction false} TopologicalAvailable(g: Graph, q: seq<Name>, k: nat)
    requires Topological(g, q) && k < |q|
    ensures Available(g, Elems(q[..k]), q[k])
  {
    assert q[k] in Elems(q);
  }

  lemma {:induction false} FirstDifferenceIsLess(g: Graph, p: seq<Name>, q: seq<Name>, k: nat)
    requires g.WellFormed() && Greedy(g, p) && Topological(g, q) && k < |p| && k < |q|
    requires p[..k] == q[..k] && p[k] != q[k]
    ensures p[k] in g.order && q[k] in g.order && g.Index(p[k]) < g.Index(q[k])
  {
    TopologicalAvailable(g, q, k);
    assert LeastAvailable(g, Elems(p[..k]), p[k]);
  }

  lemma {:induction false} MembersAreNodes(g: Graph, p: seq<Name>)
    requires g.WellFormed() && Elems(p) <= g.deps.Keys
    ensures forall n | n in p :: n in g.order
  {
    assert forall n | n in p :: n in Elems(p);
  }

  /** No topological order comes before a complete greedy one. */
  lemma {:induction false} GreedyIsLeast(g: Graph, p: seq<Name>, q: seq<Name>)
    requires g.WellFormed() && Greedy(g, p) && |p| == |g.order| && Topological(g, q)
    ensures (forall n | n in p :: n in g.order) && (forall n | n in q :: n in g.order)
    ensures DeclaredLeq(g, p, q)
  {
    GreedyIsDistinct(g, p);
    MembersAreNodes(g, p);
    MembersAreNodes(g, q);
    TopologicalSize(g, q);
    if p != q { FirstDifferenceIsLess(g, p, q, FirstDifference(p, q)); }
  }

  // ---- Cycles ----

  /** Each node depends on the next one. */
  ghost predicate Chain(g: Graph, c: seq<Name>) {
    && c != [] && (forall i | 0 <= i < |c| :: c[i] in g.deps)
    && forall i | 0 <= i < |c| - 1 :: c[i + 1] in g.deps[c[i]]
  }

  lemma {:induction false} ChainMovesBack(g: Graph, p: seq<Name>, c: seq<Name>, k: nat)
    requires Topological(g, p) && Chain(g, c) && k < |c|
    ensures forall n | n in g.deps :: n in p
    ensures IndexIn(p, c[0]) >= IndexIn(p, c[k]) + k
  {
    assert forall n | n in g.deps :: n in Elems(p);
    if k > 0 {
      ChainMovesBack(g, p, c, k - 1);
      DependencyFirst(g, p, c[k - 1], c[k]);
    }
  }

  lemma {:induction false} DependencyFirst(g: Graph, p: seq<Name>, n: Name, d: Name)
    requires Topological(g, p) && n in g.deps && d in g.deps[n] && n in p
    ensures d in p && IndexIn(p, d) < IndexIn(p, n)
  {
    var i := IndexIn(p, n);
    assert d in Elems(p[..i]);
    assert d in p[..i];
    var j :| 0 <= j < i && p[..i][j] == d;
    assert p[j] == d;
  }

  /** A graph with a topological order has no cycle. */
  lemma {:induction false} TopologicalHasNoCycle(g: Graph, p: seq<Name>, c: seq<Name>)
    requires Topological(g, p)
    ensures !Cycle(g, c)
  {
    if Cycle(g, c) {
      ChainMovesBack(g, p, c, |c| - 1);
      DependencyFirst(g, p, c[|c| - 1], c[0]);
    }
  }

  /** A descent that always moves to some dependency inside `rest`. */
  ghost function Descent(g: Graph, rest: set<Name>, n: Name, steps: nat): (s: seq<Name>)
    requires n in rest && rest <= g.deps.Keys
    requires forall m | m in rest :: g.deps[m] * rest != {}
    ensures |s| == steps + 1 && s[0] == n && (forall i | 0 <= i < |s| :: s[i] in rest)
    ensures forall i | 0 <= i < steps :: s[i + 1] in g.deps[s[i]]
    decreases steps
  {
    if steps == 0 then [n]
    else
      var d :| d in g.deps[n] * rest;
      [n] + Descent(g, rest, d, steps - 1)
  }

  lemma {:induction false} DistinctBound(s: seq<Name>, holes: set<Name>)
    requires Distinct(s) && forall k | 0 <= k < |s| :: s[k] in holes
    ensures |s| <= |holes|
  {
    DistinctSize(s);
    assert holes == Elems(s) + (holes - Elems(s));
  }

  lemma {:induction false} Pigeonhole(s: seq<Name>, holes: set<Name>) returns (i: nat, j: nat)
    requires (forall k | 0 <= k < |s| :: s[k] in holes) && |s| > |holes|
    ensures i < j < |s| && s[i] == s[j]
  {
    if Distinct(s) { DistinctBound(s, holes); }
    i, j :| 0 <= i < j < |s| && s[i] == s[j];
  }

  lemma {:induction false} CutCycle(g: Graph, s: seq<Name>, i: nat, j: nat)
    requires i < j < |s| && s[i] == s[j] && forall k | 0 <= k < |s| :: s[k] in g.deps
    requires forall k | 0 <= k < |s| - 1 :: s[k + 1] in g.deps[s[k]]
    ensures Cycle(g, s[i..j])
  {
    var c := s[i..j];
    forall k | 0 <= k < |c| - 1
      ensures c[k + 1] in g.deps[c[k]]
    {
      assert s[i + k + 1] in g.deps[s[i + k]];
    }
    assert s[(j - 1) + 1] in g.deps[s[j - 1]];
  }

  lemma {:induction false} RestHasDependencies(g: Graph, done: set<Name>)
    requires g.WellFormed() && Stuck(g, done)
    ensures forall m | m in g.deps.Keys - done :: g.deps[m] * (g.deps.Keys - done) != {}
  {
    var rest := g.deps.Keys - done;
    forall m | m in rest
      ensures g.deps[m] * rest != {}
    {
      assert !Available(g, done, m);
      var d :| d in g.deps[m] && d !in done;
      assert d in g.deps[m] * rest;
    }
  }

  /** Getting stuck before every node is taken exhibits a cycle. */
  lemma {:induction false} StuckHasCycle(g: Graph, done: set<Name>) returns (c: seq<Name>)
    requires g.WellFormed() && Stuck(g, done) && !(g.deps.Keys <= done)
    ensures Cycle(g, c)
  {
    var rest := g.deps.Keys - done;
    RestHasDependencies(g, done);
    hide Stuck, Available;
    var n :| n in rest;
    var s := Descent(g, rest, n, |rest|);
    var i, j := Pigeonhole(s, rest);
    CutCycle(g, s, i, j);
    c := s[i..j];
  }

  // ---- Layers ----

  /** n lies just above the highest of its dependencies. */
  ghost predicate Layer(g: Graph, wave: map<Name, nat>, n: Name)
    requires n in g.deps && n in wave && g.deps[n] <= wave.Keys
  {
    && (forall d | d in g.deps[n] :: wave[d] < wave[n])
    && (wave[n] > 0 ==> exists d | d in g.deps[n] :: wave[d] + 1 == wave[n])
  }

  ghost predicate Layered(g: Graph, wave: map<Name, nat>) {
    && wave.Keys == g.deps.Keys && (forall n | n in g.deps :: g.deps[n] <= g.deps.Keys)
    && forall n | n in g.deps :: Layer(g, wave, n)
  }

  lemma {:induction false} ChainDescends(g: Graph, wave: map<Name, nat>, c: seq<Name>, k: nat)
    requires Layered(g, wave) && Chain(g, c) && k < |c|
    ensures wave[c[0]] >= wave[c[k]] + k
  {
    if k > 0 {
      ChainDescends(g, wave, c, k - 1);
      assert c[k - 1 + 1] in g.deps[c[k - 1]] && Layer(g, wave, c[k - 1]);
    }
  }

  lemma {:induction false} ChainCons(g: Graph, n: Name, rest: seq<Name>)
    requires Chain(g, rest) && n in g.deps && rest[0] in g.deps[n]
    ensures Chain(g, [n] + rest)
  {
    var c := [n] + rest;
    forall i | 0 <= i < |c| - 1
      ensures c[i + 1] in g.deps[c[i]]
    {
      if i > 0 { assert rest[(i - 1) + 1] in g.deps[rest[i - 1]]; }
    }
  }

  lemma {:induction false} ChainReaching(g: Graph, wave: map<Name, nat>, n: Name) returns (c: seq<Name>)
    requires Layered(g, wave) && n in wave
    ensures Chain(g, c) && c[0] == n && |c| == wave[n] + 1
    decreases wave[n]
  {
    if wave[n] == 0 {
      c := [n];
    } else {
      assert Layer(g, wave, n);
      var d :| d in g.deps[n] && wave[d] + 1 == wave[n];
      var rest := ChainReaching(g, wave, d);
      ChainCons(g, n, rest);
      c := [n] + rest;
    }
  }

  /** The layer number of a node is the length of its longest dependency chain. */
  lemma {:induction false} LayerIsLongestChain(g: Graph, wave: map<Name, nat>, n: Name)
    requires Layered(g, wave) && n in wave
    ensures exists c :: Chain(g, c) && c[0] == n && |c| == wave[n] + 1
    ensures forall c | Chain(g, c) && c[0] == n :: |c| <= wave[n] + 1
  {
    var c := ChainReaching(g, wave, n);
    forall c | Chain(g, c) && c[0] == n
      ensures |c| <= wave[n] + 1
    {
      ChainDescends(g, wave, c, |c| - 1);
    }
  }

  /** No assignment that puts dependencies strictly earlier puts any node earlier. */
  lemma {:induction false} LayerIsEarliest(g: Graph, wave: map<Name, nat>, other: map<Name, nat>, n: Name)
    requires Layered(g, wave) && n in wave && g.deps.Keys <= other.Keys
    requires forall m, d | m in g.deps && d in g.deps[m] :: other[d] < other[m]
    ensures wave[n] <= other[n]
    decreases wave[n]
  {
    if wave[n] > 0 {
      assert Layer(g, wave, n);
      var d :| d in g.deps[n] && wave[d] + 1 == wave[n];
      LayerIsEarliest(g, wave, other, d);
    }
  }
}
