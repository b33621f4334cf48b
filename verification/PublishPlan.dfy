/** Publication order and waves: planExpectedEvidencePublication in scripts/ci-release-publish.ts. */
module PublishPlan {
  import opened Dag
  import opened Sorting
  import opened Wrappers

  datatype Record = Record(dir: string, name: Name, version: string, dependencies: map<Name, string>)

  datatype PlanError =
    | Misconfigured | DuplicateRecord | DuplicateDeclaration | MissingRecord | WrongDirectory | UnexpectedRecord
    | NoRecords | MixedVersions | UnsupportedVersion | UnknownDependency | InexactDependency | AbsentDependency
    | DependencyCycle

  function NameOf(r: Record): Name {
    r.name
  }

  function Names(rs: seq<Record>): (ns: seq<Name>)
    ensures |ns| == |rs| && forall i | 0 <= i < |rs| :: ns[i] == rs[i].name
  {
    seq(|rs|, i requires 0 <= i < |rs| => rs[i].name)
  }

  function DepsOf(rs: seq<Record>): map<Name, set<Name>> {
    if rs == [] then map[]
    else DepsOf(rs[..|rs| - 1])[rs[|rs| - 1].name := rs[|rs| - 1].dependencies.Keys]
  }

  function GraphOf(rs: seq<Record>): Graph {
    Graph(Names(rs), DepsOf(rs))
  }

  ghost predicate DistinctNames(rs: seq<Record>) {
    forall i, j | 0 <= i < j < |rs| :: rs[i].name != rs[j].name
  }

  /** Dependencies name declared records only. */
  ghost predicate Closed(rs: seq<Record>) {
    forall i, d | 0 <= i < |rs| && d in rs[i].dependencies :: d in Names(rs)
  }

  lemma {:induction false} DepsOfAt(rs: seq<Record>)
    requires DistinctNames(rs)
    ensures forall n :: n in DepsOf(rs) <==> n in Names(rs)
    ensures forall i | 0 <= i < |rs| :: rs[i].name in DepsOf(rs) && DepsOf(rs)[rs[i].name] == rs[i].dependencies.Keys
  {
    if rs != [] {
      var n := |rs| - 1;
      DepsOfAt(rs[..n]);
      assert Names(rs) == Names(rs[..n]) + [rs[n].name];
    }
  }

  lemma {:induction false} GraphIsWellFormed(rs: seq<Record>)
    requires DistinctNames(rs) && Closed(rs)
    ensures GraphOf(rs).WellFormed()
  {
    DepsOfAt(rs);
    var g := GraphOf(rs);
    forall n | n in g.deps
      ensures g.deps[n] <= g.deps.Keys
    {
      var i :| 0 <= i < |rs| && Names(rs)[i] == n;
      assert g.deps[n] == rs[i].dependencies.Keys;
    }
  }

  // ---- Kahn's algorithm ----

  /** Names among the first i records that depend on d, in declaration order. */
  function DependentsOf(rs: seq<Record>, i: nat, d: Name): seq<Name>
    requires i <= |rs|
  {
    if i == 0 then []
    else DependentsOf(rs, i - 1, d) + (if d in rs[i - 1].dependencies then [rs[i - 1].name] else [])
  }

  lemma {:induction false} DependentsOfMembers(rs: seq<Record>, i: nat, d: Name)
    requires i <= |rs| && DistinctNames(rs)
    ensures Distinct(DependentsOf(rs, i, d))
    ensures forall m | m in DependentsOf(rs, i, d) :: exists j | 0 <= j < i :: rs[j].name == m && d in rs[j].dependencies
    ensures forall j | 0 <= j < i && d in rs[j].dependencies :: rs[j].name in DependentsOf(rs, i, d)
  {
    if i > 0 {
      var before, last := DependentsOf(rs, i - 1, d), rs[i - 1].name;
      DependentsOfMembers(rs, i - 1, d);
      assert last !in before;
      forall a, b | 0 <= a < b < |DependentsOf(rs, i, d)|
        ensures DependentsOf(rs, i, d)[a] != DependentsOf(rs, i, d)[b]
      {
        assert before[a] in before;
      }
    }
  }

  /** What the counting loop has established for the first i records. */
  ghost predicate CountedIn(rs: seq<Record>, i: nat, indegree: map<Name, nat>)
    requires i <= |rs|
  {
    && (forall n :: n in indegree <==> n in Names(rs))
    && forall j | 0 <= j < |rs| :: indegree[rs[j].name] == if j < i then |rs[j].dependencies.Keys| else 0
  }

  ghost predicate CountedOut(rs: seq<Record>, i: nat, dependents: map<Name, seq<Name>>)
    requires i <= |rs|
  {
    && (forall n :: n in dependents <==> n in Names(rs))
    && forall d | d in dependents :: dependents[d] == DependentsOf(rs, i, d)
  }

  ghost predicate Appended(before: map<Name, seq<Name>>, after: map<Name, seq<Name>>, deps: set<Name>, name: Name) {
    && after.Keys == before.Keys
    && forall d | d in before :: after[d] == if d in deps then before[d] + [name] else before[d]
  }

  lemma {:induction false} AppendedNone(dependents: map<Name, seq<Name>>, name: Name)
    ensures Appended(dependents, dependents, {}, name)
  {
  }

  lemma {:induction false} AppendedNext(before: map<Name, seq<Name>>, after: map<Name, seq<Name>>, done: set<Name>, name: Name, d: Name)
    requires Appended(before, after, done, name) && d in before && d !in done
    ensures d in after && Appended(before, after[d := after[d] + [name]], done + {d}, name)
  {
  }

  /** One record's dependencies, in any order: bump its indegree, append it to each dependency's dependents. */
  method CountRecord(name: Name, deps: set<Name>, indegree: map<Name, nat>, dependents: map<Name, seq<Name>>)
    returns (indegree': map<Name, nat>, dependents': map<Name, seq<Name>>)
    requires name in indegree && indegree[name] == 0 && deps <= dependents.Keys
    ensures indegree' == indegree[name := |deps|] && Appended(dependents, dependents', deps, name)
  {
    AppendedNone(dependents, name);
    hide Appended;
    indegree', dependents' := indegree, dependents;
    var todo, done := deps, {};
    while todo != {}
      invariant todo !! done && todo + done == deps
      invariant indegree' == indegree[name := |done|] && Appended(dependents, dependents', done, name)
      decreases |todo|
    {
      var d :| d in todo;
      AppendedNext(dependents, dependents', done, name, d);
      indegree' := indegree'[name := indegree'[name] + 1];
      dependents' := dependents'[d := dependents'[d] + [name]];
      todo, done := todo - {d}, done + {d};
    }
    assert done == deps;
  }

  lemma {:induction false} CountedInNext(rs: seq<Record>, i: nat, indegree: map<Name, nat>)
    requires i < |rs| && DistinctNames(rs) && CountedIn(rs, i, indegree)
    ensures CountedIn(rs, i + 1, indegree[rs[i].name := |rs[i].dependencies.Keys|])
  {
    assert Names(rs)[i] == rs[i].name;
  }

  lemma {:induction false} CountedOutNext(rs: seq<Record>, i: nat, dependents: map<Name, seq<Name>>, dependents': map<Name, seq<Name>>)
    requires i < |rs| && CountedOut(rs, i, dependents)
    requires Appended(dependents, dependents', rs[i].dependencies.Keys, rs[i].name)
    ensures CountedOut(rs, i + 1, dependents')
  {
    forall d | d in dependents'
      ensures dependents'[d] == DependentsOf(rs, i + 1, d)
    {
      assert d in dependents;
    }
  }

  lemma {:induction false} RecordIsCounted(rs: seq<Record>, i: nat, indegree: map<Name, nat>, dependents: map<Name, seq<Name>>)
    requires i < |rs| && Closed(rs) && CountedIn(rs, i, indegree) && CountedOut(rs, i, dependents)
    ensures rs[i].name in indegree && indegree[rs[i].name] == 0 && rs[i].dependencies.Keys <= dependents.Keys
  {
    assert Names(rs)[i] == rs[i].name;
  }

  lemma {:induction false} NothingCounted(rs: seq<Record>)
    ensures CountedIn(rs, 0, map n | n in Names(rs) :: 0) && CountedOut(rs, 0, map n | n in Names(rs) :: [])
  {
    assert forall j | 0 <= j < |rs| :: Names(rs)[j] == rs[j].name;
  }

  method CountDependencies(rs: seq<Record>) returns (indegree: map<Name, nat>, dependents: map<Name, seq<Name>>)
    requires DistinctNames(rs) && Closed(rs)
    ensures CountedIn(rs, |rs|, indegree) && CountedOut(rs, |rs|, dependents)
  {
    NothingCounted(rs);
    hide CountedIn, CountedOut, Appended, DistinctNames, Closed, Names;
    indegree := map n | n in Names(rs) :: 0;
    dependents := map n | n in Names(rs) :: [];
    for i := 0 to |rs|
      invariant CountedIn(rs, i, indegree) && CountedOut(rs, i, dependents)
    {
      RecordIsCounted(rs, i, indegree, dependents);
      CountedInNext(rs, i, indegree);
      var indegree', dependents' := CountRecord(rs[i].name, rs[i].dependencies.Keys, indegree, dependents);
      CountedOutNext(rs, i, dependents, dependents');
      indegree, dependents := indegree', dependents';
    }
  }

  ghost predicate DependentLists(g: Graph, dependents: map<Name, seq<Name>>) {
    && dependents.Keys == g.deps.Keys
    && (forall d | d in dependents :: Distinct(dependents[d]))
    && forall d, m | d in dependents :: m in dependents[d] <==> m in g.deps && d in g.deps[m]
  }

  /** Each count is the number of dependencies not yet taken. */
  ghost predicate Remaining(g: Graph, done: set<Name>, indegree: map<Name, nat>) {
    indegree.Keys == g.deps.Keys && forall n | n in g.deps :: indegree[n] == |g.deps[n] - done|
  }

  ghost predicate Ready(g: Graph, done: set<Name>, ready: seq<Name>) {
    Distinct(ready) && forall n :: n in ready <==> Available(g, done, n)
  }

  ghost predicate DownClosed(g: Graph, done: set<Name>) {
    forall m | m in done :: m in g.deps && g.deps[m] <= done
  }

  lemma {:induction false} NodeIsRecord(rs: seq<Record>, n: Name) returns (i: nat)
    requires DistinctNames(rs) && n in DepsOf(rs)
    ensures i < |rs| && rs[i].name == n && DepsOf(rs)[n] == rs[i].dependencies.Keys
  {
    DepsOfAt(rs);
    i :| 0 <= i < |rs| && Names(rs)[i] == n;
  }

  lemma {:induction false} CountsOfGraph(rs: seq<Record>, indegree: map<Name, nat>)
    requires DistinctNames(rs) && CountedIn(rs, |rs|, indegree)
    ensures Remaining(GraphOf(rs), {}, indegree)
  {
    DepsOfAt(rs);
    forall n | n in DepsOf(rs)
      ensures indegree[n] == |DepsOf(rs)[n] - {}|
    {
      var i := NodeIsRecord(rs, n);
      assert DepsOf(rs)[n] - {} == DepsOf(rs)[n];
    }
  }

  lemma {:induction false} ListOfNode(rs: seq<Record>, d: Name)
    requires DistinctNames(rs)
    ensures Distinct(DependentsOf(rs, |rs|, d))
    ensures forall m :: m in DependentsOf(rs, |rs|, d) <==> m in DepsOf(rs) && d in DepsOf(rs)[m]
  {
    DependentsOfMembers(rs, |rs|, d);
    DepsOfAt(rs);
    forall m | m in DepsOf(rs) && d in DepsOf(rs)[m]
      ensures m in DependentsOf(rs, |rs|, d)
    {
      var i := NodeIsRecord(rs, m);
      assert d in rs[i].dependencies;
    }
  }

  lemma {:induction false} ListsOfGraph(rs: seq<Record>, dependents: map<Name, seq<Name>>)
    requires DistinctNames(rs) && CountedOut(rs, |rs|, dependents)
    ensures DependentLists(GraphOf(rs), dependents)
  {
    DepsOfAt(rs);
    forall d | d in dependents
      ensures Distinct(dependents[d])
      ensures forall m :: m in dependents[d] <==> m in DepsOf(rs) && d in DepsOf(rs)[m]
    {
      ListOfNode(rs, d);
    }
  }

  lemma {:induction false} RelaxOne(g: Graph, done: set<Name>, next: Name, m: Name)
    requires DownClosed(g, done) && Available(g, done, next) && m in g.deps && next in g.deps[m]
    ensures |g.deps[m] - (done + {next})| == |g.deps[m] - done| - 1
    ensures Available(g, done + {next}, m) <==> |g.deps[m] - (done + {next})| == 0
    ensures !Available(g, done, m)
  {
    assert g.deps[m] - done == (g.deps[m] - (done + {next})) + {next};
  }

  lemma {:induction false} RelaxNone(g: Graph, done: set<Name>, next: Name, m: Name)
    requires m in g.deps && next !in g.deps[m]
    ensures g.deps[m] - (done + {next}) == g.deps[m] - done
    ensures Available(g, done + {next}, m) <==> Available(g, done, m) && m != next
  {
  }

  /** Progress of the relaxation loop: counts of the dependents seen so far are one lower. */
  ghost predicate Lowered(before: map<Name, nat>, seen: seq<Name>, indegree: map<Name, nat>) {
    && indegree.Keys == before.Keys
    && forall n | n in before :: (if n in seen then indegree[n] + 1 else indegree[n]) == before[n]
  }

  ghost predicate Enqueued(before: map<Name, nat>, queue: seq<Name>, seen: seq<Name>, ready: seq<Name>) {
    && Distinct(ready) && (forall n | n in seen :: n in before)
    && forall n :: n in ready <==> n in queue || (n in seen && before[n] == 1)
  }

  /** The decrementing loop itself, over plain counters. */
  method Decrement(list: seq<Name>, indegree: map<Name, nat>, ready: seq<Name>)
    returns (indegree': map<Name, nat>, ready': seq<Name>)
    requires Distinct(list) && Distinct(ready)
    requires forall m | m in list :: m in indegree && indegree[m] > 0 && m !in ready
    ensures Lowered(indegree, list, indegree') && Enqueued(indegree, ready, list, ready')
  {
    indegree', ready' := indegree, ready;
    for j := 0 to |list|
      invariant Lowered(indegree, list[..j], indegree') && Enqueued(indegree, ready, list[..j], ready')
    {
      var m := list[j];
      assert list[..j + 1] == list[..j] + [m] && m in list && m !in list[..j];
      var remaining := indegree'[m] - 1;
      indegree' := indegree'[m := remaining];
      if remaining == 0 {
        ready' := ready' + [m];
      }
    }
    assert list[..|list|] == list;
  }

  lemma {:induction false} Released(g: Graph, done: set<Name>, next: Name, list: seq<Name>, before: map<Name, nat>, queue: seq<Name>,
                 after: map<Name, nat>, ready: seq<Name>)
    requires DownClosed(g, done) && Available(g, done, next) && Remaining(g, done, before)
    requires forall m :: m in list <==> m in g.deps && next in g.deps[m]
    requires forall n :: n in queue <==> Available(g, done, n) && n != next
    requires Lowered(before, list, after) && Enqueued(before, queue, list, ready)
    ensures Remaining(g, done + {next}, after) && Ready(g, done + {next}, ready)
  {
    forall n | n in g.deps
      ensures after[n] == |g.deps[n] - (done + {next})|
      ensures n in ready <==> Available(g, done + {next}, n)
    {
      if n in list { RelaxOne(g, done, next, n); } else { RelaxNone(g, done, next, n); }
    }
  }

  method Relax(ghost g: Graph, ghost done: set<Name>, next: Name, list: seq<Name>, indegree: map<Name, nat>, ready: seq<Name>)
    returns (indegree': map<Name, nat>, ready': seq<Name>)
    requires DownClosed(g, done) && Available(g, done, next) && Remaining(g, done, indegree)
    requires Distinct(list) && forall m :: m in list <==> m in g.deps && next in g.deps[m]
    requires Distinct(ready) && forall n :: n in ready <==> Available(g, done, n) && n != next
    ensures Remaining(g, done + {next}, indegree') && Ready(g, done + {next}, ready')
  {
    forall m | m in list
      ensures m in indegree && indegree[m] > 0 && m !in ready
    {
      RelaxOne(g, done, next, m);
    }
    indegree', ready' := Decrement(list, indegree, ready);
    Released(g, done, next, list, indegree, ready, indegree', ready');
  }

  // ---- The main loop ----

  lemma {:induction false} GreedyIsDownClosed(g: Graph, p: seq<Name>)
    requires g.WellFormed() && Greedy(g, p)
    ensures DownClosed(g, Elems(p))
  {
    forall m | m in Elems(p)
      ensures m in g.deps && g.deps[m] <= Elems(p)
    {
      var k :| 0 <= k < |p| && p[k] == m;
      assert LeastAvailable(g, Elems(p[..k]), p[k]);
      assert Elems(p[..k]) <= Elems(p);
    }
  }

  lemma {:induction false} GreedyExtends(g: Graph, p: seq<Name>, n: Name)
    requires g.WellFormed() && Greedy(g, p) && LeastAvailable(g, Elems(p), n)
    ensures Greedy(g, p + [n]) && Elems(p + [n]) == Elems(p) + {n} && |p| < |g.order|
  {
    var q := p + [n];
    forall k | 0 <= k < |q|
      ensures LeastAvailable(g, Elems(q[..k]), q[k])
    {
      assert q[..k] == p[..k];
      if k == |p| { assert p[..k] == p; } else { assert LeastAvailable(g, Elems(p[..k]), p[k]); }
    }
    GreedyIsDistinct(g, q);
    DistinctBound(q, g.deps.Keys);
    DistinctSize(g.order);
    assert Elems(g.order) == g.deps.Keys;
  }

  lemma {:induction false} AvailableAtStart(g: Graph, n: Name)
    requires n in g.deps
    ensures Available(g, {}, n) <==> |g.deps[n] - {}| == 0
  {
    assert g.deps[n] - {} == g.deps[n];
  }

  lemma {:induction false} InitiallyReady(g: Graph, indegree: map<Name, nat>, ready: seq<Name>)
    requires g.WellFormed() && Remaining(g, {}, indegree)
    requires Distinct(ready) && forall n :: n in ready <==> n in g.order && indegree[n] == 0
    ensures Ready(g, {}, ready)
  {
    forall n
      ensures n in ready <==> Available(g, {}, n)
    {
      if n in g.deps { AvailableAtStart(g, n); }
    }
  }

  function Rank(index: map<Name, nat>, n: Name): nat {
    if n in index then index[n] else 0
  }

  function SortByDeclaration(ready: seq<Name>, index: map<Name, nat>): seq<Name> {
    Sort(ready, (x, y) => Rank(index, x) <= Rank(index, y))
  }

  lemma {:induction false} SortedIsReady(g: Graph, done: set<Name>, ready: seq<Name>, index: map<Name, nat>)
    requires Ready(g, done, ready)
    ensures Ready(g, done, SortByDeclaration(ready, index)) && |SortByDeclaration(ready, index)| == |ready|
  {
    var leq, id := (x, y) => Rank(index, x) <= Rank(index, y), (n: Name) => n;
    var sorted := SortByDeclaration(ready, index);
    SortPermutes(ready, leq);
    MembersFromMultiset(sorted, ready);
    assert DistinctBy(ready, id);
    SortDistinct(ready, leq, id);
    assert forall i, j | 0 <= i < j < |sorted| :: id(sorted[i]) != id(sorted[j]);
  }

  ghost predicate IsIndex(g: Graph, index: map<Name, nat>)
    requires g.WellFormed()
  {
    index.Keys == g.deps.Keys && forall n | n in g.deps :: index[n] == g.Index(n)
  }

  lemma {:induction false} SortedHeadIsLeast(g: Graph, done: set<Name>, ready: seq<Name>, index: map<Name, nat>, sorted: seq<Name>)
    requires g.WellFormed() && IsIndex(g, index)
    requires sorted == SortByDeclaration(ready, index) && sorted != [] && Ready(g, done, sorted)
    ensures LeastAvailable(g, done, sorted[0])
  {
    SortSorts(ready, (x, y) => Rank(index, x) <= Rank(index, y));
    var n := sorted[0];
    assert n in sorted && Available(g, done, n);
    forall m | Available(g, done, m)
      ensures g.Index(n) <= g.Index(m)
    {
      assert m in sorted;
      var j :| 0 <= j < |sorted| && sorted[j] == m;
      assert j > 0 ==> Rank(index, sorted[0]) <= Rank(index, sorted[j]);
    }
  }

  function Free(counts: map<Name, nat>): Name -> bool {
    n => n in counts && counts[n] == 0
  }

  lemma {:induction false} FilterIsReady(g: Graph, counts: map<Name, nat>)
    requires g.WellFormed() && Remaining(g, {}, counts)
    ensures Ready(g, {}, Filter(g.order, Free(counts)))
  {
    FilterDistinct(g.order, Free(counts));
    InitiallyReady(g, counts, Filter(g.order, Free(counts)));
  }

  lemma {:induction false} ReadyAtStart(rs: seq<Record>, indegree: map<Name, nat>, dependents: map<Name, seq<Name>>)
    requires DistinctNames(rs) && Closed(rs) && CountedIn(rs, |rs|, indegree) && CountedOut(rs, |rs|, dependents)
    ensures GraphOf(rs).WellFormed()
    ensures Remaining(GraphOf(rs), {}, indegree) && DependentLists(GraphOf(rs), dependents)
    ensures Ready(GraphOf(rs), {}, Filter(Names(rs), Free(indegree)))
  {
    GraphIsWellFormed(rs);
    CountsOfGraph(rs, indegree);
    ListsOfGraph(rs, dependents);
    FilterIsReady(GraphOf(rs), indegree);
  }

  method DeclarationIndex(rs: seq<Record>) returns (index: map<Name, nat>)
    requires GraphOf(rs).WellFormed()
    ensures IsIndex(GraphOf(rs), index)
  {
    index := map n | n in Names(rs) :: IndexIn(Names(rs), n);
  }

  lemma {:induction false} TailAfterHead(g: Graph, done: set<Name>, sorted: seq<Name>)
    requires Ready(g, done, sorted) && sorted != []
    ensures Distinct(sorted[1..]) && forall n :: n in sorted[1..] <==> Available(g, done, n) && n != sorted[0]
  {
    assert sorted == [sorted[0]] + sorted[1..];
  }

  /** Kahn's loop: always the first declared record whose dependencies are all out. */
  method OrderByDependencies(rs: seq<Record>) returns (ordered: seq<Name>)
    requires DistinctNames(rs) && Closed(rs)
    ensures GraphOf(rs).WellFormed() && Greedy(GraphOf(rs), ordered) && Stuck(GraphOf(rs), Elems(ordered))
  {
    ghost var g := GraphOf(rs);
    var indegree, dependents := CountDependencies(rs);
    ReadyAtStart(rs, indegree, dependents);
    var index := DeclarationIndex(rs);
    var ready := Filter(Names(rs), Free(indegree));
    ordered := [];
    assert Elems(ordered) == {};
    while ready != []
      invariant Greedy(g, ordered)
      invariant Remaining(g, Elems(ordered), indegree) && Ready(g, Elems(ordered), ready)
      decreases |g.order| - |ordered|
    {
      var sorted := SortByDeclaration(ready, index);
      SortedIsReady(g, Elems(ordered), ready, index);
      SortedHeadIsLeast(g, Elems(ordered), ready, index, sorted);
      TailAfterHead(g, Elems(ordered), sorted);
      var next := sorted[0];
      GreedyIsDownClosed(g, ordered);
      GreedyExtends(g, ordered, next);
      indegree, ready := Relax(g, Elems(ordered), next, dependents[next], indegree, sorted[1..]);
      ordered := ordered + [next];
    }
  }

  /** All declared names, dependencies first, and no such order declared earlier. */
  ghost predicate LeastOrder(g: Graph, p: seq<Name>) {
    && g.WellFormed() && Topological(g, p) && (forall n | n in p :: n in g.order)
    && forall q | Topological(g, q) :: (forall n | n in q :: n in g.order) && DeclaredLeq(g, p, q)
  }

  ghost predicate HasCycle(g: Graph) {
    exists c :: Cycle(g, c)
  }

  lemma {:induction false} CompleteVerdict(g: Graph, p: seq<Name>)
    requires g.WellFormed() && Greedy(g, p) && |p| == |g.order|
    ensures LeastOrder(g, p) && !HasCycle(g)
  {
    GreedyCompleteIsTopological(g, p);
    MembersAreNodes(g, p);
    forall c
      ensures !Cycle(g, c)
    {
      TopologicalHasNoCycle(g, p, c);
    }
    forall q | Topological(g, q)
      ensures (forall n | n in q :: n in g.order) && DeclaredLeq(g, p, q)
    {
      GreedyIsLeast(g, p, q);
    }
  }

  lemma {:induction false} IncompleteVerdict(g: Graph, p: seq<Name>)
    requires g.WellFormed() && Greedy(g, p) && Stuck(g, Elems(p)) && |p| != |g.order|
    ensures HasCycle(g)
  {
    GreedyIsDistinct(g, p);
    DistinctSize(p);
    DistinctSize(g.order);
    assert Elems(g.order) == g.deps.Keys;
    assert Elems(p) != g.deps.Keys;
    var c := StuckHasCycle(g, Elems(p));
  }

  /** A stuck greedy order is complete exactly when there is no cycle. */
  lemma {:induction false} GreedyVerdict(g: Graph, p: seq<Name>)
    requires g.WellFormed() && Greedy(g, p) && Stuck(g, Elems(p))
    ensures |p| == |g.order| <==> !HasCycle(g)
    ensures |p| == |g.order| ==> LeastOrder(g, p)
  {
    if |p| == |g.order| { CompleteVerdict(g, p); } else { IncompleteVerdict(g, p); }
  }

  /** The records behind an order of their names. */
  method Lookup(rs: seq<Record>, ordered: seq<Name>) returns (out: seq<Record>)
    requires DistinctNames(rs) && forall n | n in ordered :: n in Names(rs)
    ensures Names(out) == ordered && forall r | r in out :: r in rs
  {
    out := [];
    for i := 0 to |ordered|
      invariant Names(out) == ordered[..i] && forall r | r in out :: r in rs
    {
      assert ordered[i] in ordered;
      var k := IndexIn(Names(rs), ordered[i]);
      assert ordered[..i + 1] == ordered[..i] + [ordered[i]];
      out := out + [rs[k]];
    }
    assert ordered[..|ordered|] == ordered;
  }

  lemma {:induction false} SameNamesPermute(rs: seq<Record>, out: seq<Record>)
    requires DistinctNames(rs) && (forall r | r in out :: r in rs)
    requires Distinct(Names(out)) && Elems(Names(out)) == Elems(Names(rs))
    ensures multiset(out) == multiset(rs)
  {
    assert forall i, j | 0 <= i < j < |out| :: Names(out)[i] != Names(out)[j];
    assert DistinctBy(rs, NameOf) && DistinctBy(out, NameOf);
    forall r | r in rs
      ensures r in out
    {
      var i :| 0 <= i < |rs| && rs[i] == r;
      assert Names(rs)[i] == r.name && r.name in Elems(Names(out));
      var k :| 0 <= k < |out| && Names(out)[k] == r.name;
      assert out[k] in out;
      var j :| 0 <= j < |rs| && rs[j] == out[k];
      assert i == j;
    }
    SameMembersPermute(out, rs, NameOf);
  }

  /** The plan of declared records: the cycle error exactly on a cycle, otherwise the least dependency order. */
  method PlanDeclared(rs: seq<Record>) returns (r: Result<seq<Record>, PlanError>)
    requires DistinctNames(rs) && Closed(rs)
    ensures r == Err(DependencyCycle) <==> HasCycle(GraphOf(rs))
    ensures r.Err? ==> r.error == DependencyCycle
    ensures r.Ok? ==> LeastOrder(GraphOf(rs), Names(r.value)) && multiset(r.value) == multiset(rs)
  {
    var ordered := OrderByDependencies(rs);
    ghost var g := GraphOf(rs);
    GreedyVerdict(g, ordered);
    if |ordered| != |rs| {
      return Err(DependencyCycle);
    }
    assert Elems(Names(rs)) == g.deps.Keys;
    var out := Lookup(rs, ordered);
    SameNamesPermute(rs, out);
    return Ok(out);
  }
}
