/** Publication waves over the dependency-ordered plan: scripts/ci-release-publish.ts. */
module PublishWaves {
  import opened Dag
  import opened PublishInput
  import opened PublishPlan
  import opened Sorting
  import opened Wrappers

  /** Every dependency of a record stands earlier in the plan. */
  ghost predicate DependenciesFirst(plan: seq<Record>) {
    && DistinctNames(plan)
    && forall i, d | 0 <= i < |plan| && d in plan[i].dependencies :: d in Names(plan[..i])
  }

  function InWave(wave: map<Name, nat>, w: nat): Name -> bool {
    n => n in wave && wave[n] == w
  }

  /** The waves list the plan's names by wave number, in plan order, without gaps. */
  ghost predicate Grouped(names: seq<Name>, wave: map<Name, nat>, waves: seq<seq<Name>>) {
    && wave.Keys == Elems(names)
    && (forall n | n in wave :: wave[n] < |waves|)
    && forall w | 0 <= w < |waves| :: waves[w] == Filter(names, InWave(wave, w)) && waves[w] != []
  }

  /** First wave after all dependencies. */
  method WaveOf(deps: set<Name>, wave: map<Name, nat>) returns (w: nat)
    requires deps <= wave.Keys
    ensures forall d | d in deps :: wave[d] < w
    ensures w > 0 ==> exists d | d in deps :: wave[d] + 1 == w
  {
    w := 0;
    var todo := deps;
    while todo != {}
      invariant todo <= deps
      invariant forall d | d in deps - todo :: wave[d] < w
      invariant w > 0 ==> exists d | d in deps :: wave[d] + 1 == w
      decreases |todo|
    {
      var d :| d in todo;
      if wave[d] + 1 > w {
        w := wave[d] + 1;
      }
      todo := todo - {d};
    }
  }

  lemma {:induction false} LayerKept(g: Graph, g': Graph, name: Name, wave: map<Name, nat>, w: nat, n: Name)
    requires Layered(g, wave) && name !in g.deps && n in g.deps
    requires n in g'.deps && g'.deps[n] == g.deps[n]
    ensures g'.deps[n] <= wave.Keys && Layer(g', wave[name := w], n)
  {
    assert Layer(g, wave, n);
    var wave' := wave[name := w];
    assert forall d | d in g.deps[n] :: d in g.deps && d != name && wave'[d] == wave[d];
    hide Layered;
    if wave[n] > 0 {
      var d :| d in g.deps[n] && wave[d] + 1 == wave[n];
      assert wave'[d] + 1 == wave'[n];
    }
  }

  lemma {:induction false} LayerNew(g': Graph, name: Name, wave: map<Name, nat>, w: nat)
    requires name in g'.deps && name !in wave && g'.deps[name] <= wave.Keys
    requires forall d | d in g'.deps[name] :: wave[d] < w
    requires w > 0 ==> exists d | d in g'.deps[name] :: wave[d] + 1 == w
    ensures Layer(g', wave[name := w], name)
  {
    if w > 0 {
      var d :| d in g'.deps[name] && wave[d] + 1 == w;
      assert wave[name := w][d] + 1 == wave[name := w][name];
    }
  }

  lemma {:induction false} LayeredAdd(g: Graph, g': Graph, name: Name, deps: set<Name>, wave: map<Name, nat>, w: nat)
    requires Layered(g, wave) && name !in g.deps && deps <= g.deps.Keys && g'.deps == g.deps[name := deps]
    requires forall d | d in deps :: wave[d] < w
    requires w > 0 ==> exists d | d in deps :: wave[d] + 1 == w
    ensures Layered(g', wave[name := w])
  {
    LayerNew(g', name, wave, w);
    forall n | n in g.deps
      ensures g'.deps[n] <= wave.Keys && Layer(g', wave[name := w], n)
    {
      LayerKept(g, g', name, wave, w, n);
    }
  }

  lemma {:induction false} GroupedExtends(names: seq<Name>, name: Name, wave: map<Name, nat>, w: nat, k: nat)
    requires name !in wave && wave.Keys == Elems(names) && name !in names
    ensures Filter(names + [name], InWave(wave[name := w], k)) ==
            Filter(names, InWave(wave, k)) + (if k == w then [name] else [])
  {
    var p := InWave(wave[name := w], k);
    FilterAppend(names, [name], p);
    FilterAgrees(names, p, InWave(wave, k));
    assert [name][1..] == [];
  }

  lemma {:induction false} PushGrouped(names: seq<Name>, name: Name, wave: map<Name, nat>, w: nat, waves: seq<seq<Name>>)
    requires Grouped(names, wave, waves) && name !in names && w <= |waves|
    ensures var waves' := if w == |waves| then waves + [[name]] else waves[w := waves[w] + [name]];
            Grouped(names + [name], wave[name := w], waves')
  {
    hide Filter;
    var waves' := if w == |waves| then waves + [[name]] else waves[w := waves[w] + [name]];
    var wave' := wave[name := w];
    assert name !in wave by { assert name !in Elems(names); }
    assert Elems(names + [name]) == Elems(names) + {name};
    forall k | 0 <= k < |waves'|
      ensures waves'[k] == Filter(names + [name], InWave(wave', k)) && waves'[k] != []
    {
      GroupedExtends(names, name, wave, w, k);
      if k == |waves| { NoneInWave(names, wave, k); }
    }
  }

  lemma {:induction false} NoneInWave(names: seq<Name>, wave: map<Name, nat>, k: nat)
    requires forall n | n in wave :: wave[n] < k
    ensures Filter(names, InWave(wave, k)) == []
  {
    if names != [] { NoneInWave(names[1..], wave, k); }
  }

  /** The layers of the dependency graph, in plan order. */
  ghost predicate AreWaves(plan: seq<Record>, waves: seq<seq<Name>>) {
    exists wave | Layered(GraphOf(plan), wave) :: Grouped(Names(plan), wave, waves)
  }

  /** Groups a dependency-ordered plan. */
  method GroupWaves(plan: seq<Record>) returns (waves: seq<seq<Name>>, ghost wave: map<Name, nat>)
    requires DependenciesFirst(plan)
    ensures Layered(GraphOf(plan), wave) && Grouped(Names(plan), wave, waves)
    ensures AreWaves(plan, waves)
  {
    var waveByName: map<Name, nat> := map[];
    waves := [];
    for i := 0 to |plan|
      invariant Layered(GraphOf(plan[..i]), waveByName)
      invariant Grouped(Names(plan[..i]), waveByName, waves)
    {
      var name, names := plan[i].name, Names(plan[..i]);
      assert Names(plan[..i + 1]) == names + [name];
      assert name !in names;
      forall d | d in plan[i].dependencies.Keys
        ensures d in waveByName
      {
        assert d in Elems(names);
      }
      var w := WaveOf(plan[i].dependencies.Keys, waveByName);
      assert name !in waveByName by { assert name !in Elems(names); }
      assert plan[..i + 1][..i] == plan[..i];
      LayeredAdd(GraphOf(plan[..i]), GraphOf(plan[..i + 1]), name, plan[i].dependencies.Keys, waveByName, w);
      PushGrouped(names, name, waveByName, w, waves);
      waveByName := waveByName[name := w];
      waves := if w == |waves| then waves + [[name]] else waves[w := waves[w] + [name]];
    }
    assert plan[..|plan|] == plan;
    wave := waveByName;
  }

  lemma {:induction false} TopologicalDependenciesFirst(declared: seq<Record>, plan: seq<Record>)
    requires DistinctNames(declared) && Topological(GraphOf(declared), Names(plan))
    requires multiset(plan) == multiset(declared)
    ensures DependenciesFirst(plan)
  {
    forall i, j | 0 <= i < j < |plan|
      ensures plan[i].name != plan[j].name
    {
      assert Names(plan)[i] != Names(plan)[j];
    }
    forall i, d | 0 <= i < |plan| && d in plan[i].dependencies
      ensures d in Names(plan[..i])
    {
      PlanRecordDeps(declared, plan, i);
      assert Names(plan)[..i] == Names(plan[..i]);
      assert d in Elems(Names(plan)[..i]);
    }
  }

  lemma {:induction false} PlanRecordDeps(declared: seq<Record>, plan: seq<Record>, i: nat)
    requires DistinctNames(declared) && multiset(plan) == multiset(declared) && i < |plan|
    ensures plan[i].name in DepsOf(declared) && DepsOf(declared)[plan[i].name] == plan[i].dependencies.Keys
  {
    DepsOfAt(declared);
    assert plan[i] in multiset(plan) && plan[i] in multiset(declared);
    var k :| 0 <= k < |declared| && declared[k] == plan[i];
  }

  lemma {:induction false} LeastDependenciesFirst(declared: seq<Record>, plan: seq<Record>)
    requires DistinctNames(declared) && LeastOrder(GraphOf(declared), Names(plan))
    requires multiset(plan) == multiset(declared)
    ensures DependenciesFirst(plan)
  {
    TopologicalDependenciesFirst(declared, plan);
  }

  lemma {:induction false} PlannedDependenciesFirst(records: seq<Record>, config: Config, plan: seq<Record>)
    requires Planned(records, config, plan)
    ensures DependenciesFirst(plan)
  {
    var declared :| Selected(records, config, declared) && Pinned(declared, config)
      && LeastOrder(GraphOf(declared), Names(plan)) && multiset(plan) == multiset(records);
    LeastDependenciesFirst(declared, plan);
  }

  /** The waves of arbitrary records: fails as the plan fails, otherwise groups it without gaps. */
  method PlanExpectedEvidencePublicationWaves(records: seq<Record>, config: Config)
    returns (r: Result<seq<seq<Name>>, PlanError>, ghost plan: seq<Record>, ghost wave: map<Name, nat>)
    ensures r.Ok? <==> ValidInput(records, config) && !Cyclic(records, config)
    ensures r == Err(DependencyCycle) <==> Cyclic(records, config)
    ensures r.Ok? ==> Planned(records, config, plan)
    ensures r.Ok? ==> Layered(GraphOf(plan), wave) && Grouped(Names(plan), wave, r.value)
  {
    var planned := PlanExpectedEvidencePublication(records, config);
    plan, wave := [], map[];
    if planned.Err? {
      return Err(planned.error), [], map[];
    }
    PlannedDependenciesFirst(records, config, planned.value);
    var waves, waveByName := GroupWaves(planned.value);
    return Ok(waves), planned.value, waveByName;
  }

  // ---- What the waves promise ----

  /** Each planned name lies in exactly one wave, and waves hold nothing else. */
  lemma {:induction false} WavesPartition(names: seq<Name>, wave: map<Name, nat>, waves: seq<seq<Name>>)
    requires Grouped(names, wave, waves)
    ensures forall w, n | 0 <= w < |waves| :: n in waves[w] <==> n in names && wave[n] == w
    ensures forall n | n in names :: wave[n] < |waves|
    ensures Distinct(names) ==> forall w | 0 <= w < |waves| :: Distinct(waves[w])
  {
    forall n | n in names
      ensures n in wave
    {
      assert n in Elems(names);
    }
    if Distinct(names) {
      forall w | 0 <= w < |waves|
        ensures Distinct(waves[w])
      {
        FilterDistinct(names, InWave(wave, w));
      }
    }
  }

  /** Packages of one wave never depend on each other, and dependencies sit in strictly earlier waves. */
  lemma {:induction false} WavesAreIndependent(g: Graph, names: seq<Name>, wave: map<Name, nat>, waves: seq<seq<Name>>, w: nat, n: Name, d: Name)
    requires Layered(g, wave) && Grouped(names, wave, waves)
    requires w < |waves| && n in waves[w] && d in g.deps[n]
    ensures d !in waves[w] && exists v | 0 <= v < w :: d in waves[v]
  {
    assert n in Filter(names, InWave(wave, w)) && wave[n] == w;
    assert Layer(g, wave, n);
    assert d in Elems(names);
    assert d in waves[wave[d]];
  }

  /** Within a wave the plan's order is kept. */
  lemma {:induction false} WavesKeepPlanOrder(names: seq<Name>, wave: map<Name, nat>, waves: seq<seq<Name>>, i: nat, j: nat)
    requires Grouped(names, wave, waves) && i < j < |names|
    requires names[i] in wave && names[j] in wave && wave[names[i]] == wave[names[j]]
    ensures wave[names[i]] < |waves|
    ensures var ns := waves[wave[names[i]]];
            exists a, b | 0 <= a < b < |ns| :: ns[a] == names[i] && ns[b] == names[j]
  {
    FilterKeepsOrder(names, InWave(wave, wave[names[i]]), i, j);
  }
}
