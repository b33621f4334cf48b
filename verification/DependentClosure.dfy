/** Reverse-dependency closure: workspace packages and Cargo units. */
module DependentClosure {
  import opened Dag
  import opened Wrappers

  // ---- Specification ----

  ghost predicate ClosedSet(roots: set<Name>, leads: (Name, Name) -> bool, s: set<Name>) {
    roots <= s && forall a, b | a in s && leads(a, b) :: b in s
  }

  /** The smallest set that contains the roots and everything they lead to. */
  ghost predicate LeastClosed(roots: set<Name>, leads: (Name, Name) -> bool, s: set<Name>) {
    ClosedSet(roots, leads, s) && forall t | ClosedSet(roots, leads, t) :: s <= t
  }

  lemma {:induction false} LeastIsUnique(roots: set<Name>, leads: (Name, Name) -> bool, s: set<Name>, t: set<Name>)
    requires LeastClosed(roots, leads, s) && LeastClosed(roots, leads, t)
    ensures s == t
  {
  }

  /** A way from a root, one step of the relation at a time. */
  ghost predicate Way(roots: set<Name>, leads: (Name, Name) -> bool, way: seq<Name>) {
    way != [] && way[0] in roots && forall i | 0 <= i < |way| - 1 :: leads(way[i], way[i + 1])
  }

  ghost predicate Reached(roots: set<Name>, leads: (Name, Name) -> bool, n: Name) {
    exists way :: Way(roots, leads, way) && way[|way| - 1] == n
  }

  lemma {:induction false} ReachedFrom(roots: set<Name>, leads: (Name, Name) -> bool, a: Name, b: Name)
    ensures a in roots ==> Reached(roots, leads, a)
    ensures Reached(roots, leads, a) && leads(a, b) ==> Reached(roots, leads, b)
  {
    if a in roots { assert Way(roots, leads, [a]); }
    if way :| Way(roots, leads, way) && way[|way| - 1] == a {
      if leads(a, b) { assert Way(roots, leads, way + [b]); }
    }
  }

  /** The least closed set holds exactly what some way from a root ends in. */
  lemma {:induction false} LeastIsReach(roots: set<Name>, leads: (Name, Name) -> bool, s: set<Name>, n: Name)
    requires LeastClosed(roots, leads, s)
    ensures n in s <==> exists way :: Way(roots, leads, way) && way[|way| - 1] == n
  {
    assert Reached(roots, leads, n) <==> exists way :: Way(roots, leads, way) && way[|way| - 1] == n;
    if way :| Way(roots, leads, way) && way[|way| - 1] == n { WayStays(roots, leads, s, way); }
    hide Reached, Way;
    var reached := set m | m in s && Reached(roots, leads, m);
    forall a, b
      ensures a in roots ==> Reached(roots, leads, a)
      ensures Reached(roots, leads, a) && leads(a, b) ==> Reached(roots, leads, b)
    {
      ReachedFrom(roots, leads, a, b);
    }
    assert ClosedSet(roots, leads, reached);
  }

  lemma {:induction false} WayStays(roots: set<Name>, leads: (Name, Name) -> bool, s: set<Name>, way: seq<Name>)
    requires ClosedSet(roots, leads, s) && Way(roots, leads, way)
    ensures way[|way| - 1] in s
  {
    if |way| > 1 {
      var front := way[..|way| - 1];
      WayStays(roots, leads, s, front);
      assert leads(way[|way| - 2], way[|way| - 1]);
    }
  }

  /** Nothing has been selected that a closed set could leave out. */
  ghost predicate Justified(roots: set<Name>, leads: (Name, Name) -> bool, s: set<Name>) {
    forall t | ClosedSet(roots, leads, t) :: s <= t
  }

  /** Every selected name is waiting in the queue or has all it leads to selected. */
  ghost predicate Explored(leads: (Name, Name) -> bool, s: set<Name>, queue: seq<Name>) {
    forall a, b | a in s && a !in queue && leads(a, b) :: b in s
  }

  // ---- Workspace packages ----

  /** Dependency scopes in order, each from dependency name to version range. */
  datatype Package = Package(name: Name, dir: string, scopes: seq<map<Name, string>>)

  predicate InWorkspace(version: string) {
    |version| >= 10 && version[..10] == "workspace:"
  }

  predicate DependsOn(p: Package, dependency: Name, known: set<Name>) {
    exists i | 0 <= i < |p.scopes| ::
      && dependency in p.scopes[i] && p.scopes[i][dependency] != ""
      && (InWorkspace(p.scopes[i][dependency]) || dependency in known)
  }

  /** Any range counts for a workspace package, and for other names only the workspace protocol does. */
  lemma {:induction false} DependsOnIff(p: Package, dependency: Name, known: set<Name>)
    ensures DependsOn(p, dependency, known) <==>
            exists i | 0 <= i < |p.scopes| ::
              dependency in p.scopes[i] && p.scopes[i][dependency] != ""
              && (dependency in known || exists rest :: p.scopes[i][dependency] == "workspace:" + rest)
  {
    forall i | 0 <= i < |p.scopes| && dependency in p.scopes[i]
      ensures InWorkspace(p.scopes[i][dependency]) <==> exists rest :: p.scopes[i][dependency] == "workspace:" + rest
    {
      var v := p.scopes[i][dependency];
      if InWorkspace(v) { assert v == "workspace:" + v[10..]; }
      if rest :| v == "workspace:" + rest { assert v[..10] == "workspace:"; }
    }
    hide InWorkspace;
  }

  function PackageNames(ps: seq<Package>): set<Name> {
    set i | 0 <= i < |ps| :: ps[i].name
  }

  /** Names of the packages, among the first i, that depend on a. */
  function DependentNames(packages: seq<Package>, i: nat, a: Name, known: set<Name>): set<Name>
    requires i <= |packages|
  {
    set j | 0 <= j < i && DependsOn(packages[j], a, known) :: packages[j].name
  }

  /** b is a package that depends on a; an empty name leads nowhere. */
  function Dependents(packages: seq<Package>): (Name, Name) -> bool {
    (a: Name, b: Name) => a.text != "" && b in DependentNames(packages, |packages|, a, PackageNames(packages))
  }

  ghost predicate Represents(selected: map<Name, Package>, touched: seq<Package>, packages: seq<Package>) {
    forall n | n in selected :: selected[n].name == n && (selected[n] in touched || selected[n] in packages)
  }

  lemma {:induction false} DependentNamesNext(packages: seq<Package>, i: nat, a: Name, known: set<Name>)
    requires i < |packages|
    ensures DependentNames(packages, i + 1, a, known) == DependentNames(packages, i, a, known)
            + (if DependsOn(packages[i], a, known) then {packages[i].name} else {})
  {
  }

  lemma {:induction false} ElemsPush(s: seq<Name>, n: Name)
    ensures Elems(s + [n]) == Elems(s) + {n}
  {
  }

  /** One dequeued name: select every package that depends on it and is not selected yet. */
  method Visit(current: Name, packages: seq<Package>, selected: map<Name, Package>, queue: seq<Name>, ghost touched: seq<Package>)
    returns (selected': map<Name, Package>, queue': seq<Name>, ghost added: seq<Name>)
    requires Represents(selected, touched, packages)
    ensures Represents(selected', touched, packages)
    ensures selected'.Keys == selected.Keys + DependentNames(packages, |packages|, current, PackageNames(packages))
    ensures queue' == queue + added && Elems(added) == selected'.Keys - selected.Keys
  {
    selected', queue', added := selected, queue, [];
    var known := PackageNames(packages);
    for i := 0 to |packages|
      invariant Represents(selected', touched, packages)
      invariant selected'.Keys == selected.Keys + DependentNames(packages, i, current, known)
      invariant queue' == queue + added && Elems(added) == selected'.Keys - selected.Keys
    {
      var candidate := packages[i];
      DependentNamesNext(packages, i, current, known);
      if candidate.name in selected' {
        continue;
      }
      if DependsOn(candidate, current, known) {
        selected' := selected'[candidate.name := candidate];
        queue' := queue' + [candidate.name];
        ElemsPush(added, candidate.name);
        added := added + [candidate.name];
      }
    }
  }

  function SelectTouched(touched: seq<Package>): (selected: map<Name, Package>)
    ensures selected.Keys == PackageNames(touched)
    ensures forall n | n in selected :: selected[n].name == n && selected[n] in touched
  {
    if touched == [] then map[]
    else
      var last := touched[|touched| - 1];
      var rest := SelectTouched(touched[..|touched| - 1]);
      assert PackageNames(touched) == PackageNames(touched[..|touched| - 1]) + {last.name};
      rest[last.name := last]
  }

  function NamesOf(ps: seq<Package>): (ns: seq<Name>)
    ensures Elems(ns) == PackageNames(ps)
  {
    var ns := seq(|ps|, i requires 0 <= i < |ps| => ps[i].name);
    assert forall n | n in PackageNames(ps) :: n in ns by {
      forall n | n in PackageNames(ps)
        ensures n in ns
      {
        var i :| 0 <= i < |ps| && ps[i].name == n;
        assert ns[i] == n;
      }
    }
    ns
  }

  /** What the queue loop keeps, whatever the graph. */
  ghost predicate Searching(roots: set<Name>, leads: (Name, Name) -> bool, s: set<Name>, queue: seq<Name>) {
    roots <= s && Justified(roots, leads, s) && Elems(queue) <= s && Explored(leads, s, queue)
  }

  /** Dequeuing a name after selecting everything it leads to. */
  lemma {:induction false} SearchStep(roots: set<Name>, leads: (Name, Name) -> bool, s: set<Name>, queue: seq<Name>, found: set<Name>, added: seq<Name>)
    requires queue != [] && Searching(roots, leads, s, queue)
    requires forall b :: leads(queue[0], b) ==> b in s + found
    requires forall b | b in found :: leads(queue[0], b)
    requires Elems(added) == (s + found) - s
    ensures Searching(roots, leads, s + found, queue[1..] + added)
  {
    var current, rest := queue[0], queue[1..] + added;
    assert queue == [current] + queue[1..] && current in Elems(queue);
    assert Elems(rest) == Elems(queue[1..]) + Elems(added) && Elems(queue) == {current} + Elems(queue[1..]);
    forall t | ClosedSet(roots, leads, t)
      ensures s + found <= t
    {
      assert s <= t;
    }
    forall a, b | a in s + found && a !in rest && leads(a, b)
      ensures b in s + found
    {
      assert a !in Elems(rest);
      if a != current { assert a in s && a !in Elems(queue) && a !in queue; }
    }
  }

  lemma {:induction false} SearchDone(roots: set<Name>, leads: (Name, Name) -> bool, s: set<Name>)
    requires Searching(roots, leads, s, [])
    ensures LeastClosed(roots, leads, s)
  {
  }

  /** What one visit does to the search, and why it ends. */
  lemma {:induction false} SearchVisit(leads: (Name, Name) -> bool, roots: set<Name>, universe: set<Name>, before: set<Name>, queue: seq<Name>,
                    found: set<Name>, after: set<Name>, added: seq<Name>)
    requires queue != [] && Searching(roots, leads, before, queue) && before <= universe && found <= universe
    requires forall b :: leads(queue[0], b) <==> b in found
    requires after == before + found && Elems(added) == after - before
    ensures Searching(roots, leads, after, queue[1..] + added) && after <= universe
    ensures |universe - after| < |universe - before| || (after == before && added == [])
  {
    SearchStep(roots, leads, before, queue, found, added);
    Shrinks(universe, before, after, added);
  }

  lemma {:induction false} SearchSkip(leads: (Name, Name) -> bool, roots: set<Name>, s: set<Name>, queue: seq<Name>)
    requires queue != [] && Searching(roots, leads, s, queue) && forall b :: !leads(queue[0], b)
    ensures Searching(roots, leads, s, queue[1..])
  {
    SearchStep(roots, leads, s, queue, {}, []);
    assert s + {} == s && queue[1..] + [] == queue[1..];
  }

  lemma {:induction false} LeadsTo(packages: seq<Package>, current: Name, found: set<Name>)
    requires found == DependentNames(packages, |packages|, current, PackageNames(packages))
    ensures forall b :: Dependents(packages)(current, b) <==> current.text != "" && b in found
    ensures found <= PackageNames(packages)
  {
  }

  lemma {:induction false} SearchStarts(packages: seq<Package>, touched: seq<Package>)
    ensures Searching(PackageNames(touched), Dependents(packages), PackageNames(touched), NamesOf(touched))
  {
    assert forall n | n in PackageNames(touched) :: n in Elems(NamesOf(touched));
  }

  /** expandWithDependents: exactly the least set of names holding the touched ones and closed under dependents. */
  method ExpandWithDependents(touched: seq<Package>, packages: seq<Package>) returns (selected: map<Name, Package>)
    ensures LeastClosed(PackageNames(touched), Dependents(packages), selected.Keys)
    ensures Represents(selected, touched, packages)
  {
    ghost var roots, universe := PackageNames(touched), PackageNames(touched) + PackageNames(packages);
    selected := SelectTouched(touched);
    var queue := NamesOf(touched);
    SearchStarts(packages, touched);
    while queue != []
      invariant Represents(selected, touched, packages) && selected.Keys <= universe
      invariant Searching(roots, Dependents(packages), selected.Keys, queue)
      decreases |universe - selected.Keys|, |queue|
    {
      var current := queue[0];
      if current.text == "" {
        SearchSkip(Dependents(packages), roots, selected.Keys, queue);
        queue := queue[1..];
        continue;
      }
      ghost var waiting, before := queue, selected.Keys;
      ghost var added;
      selected, queue, added := Visit(current, packages, selected, queue[1..], touched);
      ghost var found := DependentNames(packages, |packages|, current, PackageNames(packages));
      LeadsTo(packages, current, found);
      SearchVisit(Dependents(packages), roots, universe, before, waiting, found, selected.Keys, added);
    }
    SearchDone(roots, Dependents(packages), selected.Keys);
  }

  /** Either something new was selected, or nothing was enqueued. */
  lemma {:induction false} Shrinks(universe: set<Name>, before: set<Name>, after: set<Name>, added: seq<Name>)
    requires before <= after <= universe && Elems(added) == after - before
    ensures |universe - after| < |universe - before| || (after == before && added == [])
  {
    if added != [] { assert added[0] in Elems(added); }
    if after != before {
      var n :| n in after && n !in before;
      assert universe - before == (universe - after) + (after - before);
      assert n in after - before;
    }
  }

  /** With unique names the selection is the packages of the closure themselves. */
  lemma {:induction false} SelectionIsPackages(selected: map<Name, Package>, touched: seq<Package>, packages: seq<Package>, p: Package)
    requires Represents(selected, touched, packages) && p in packages && p.name in selected
    requires forall t | t in touched :: t in packages
    requires forall i, j | 0 <= i < j < |packages| :: packages[i].name != packages[j].name
    ensures selected[p.name] == p
  {
    var i :| 0 <= i < |packages| && packages[i] == p;
    var j :| 0 <= j < |packages| && packages[j] == selected[p.name];
    assert i == j;
  }

  // ---- Cargo units ----

  /** A package of the Cargo metadata: its id and the manifests of its path dependencies. */
  datatype Crate = Crate(id: Name, manifests: seq<string>)

  /** Pairs of a unit and a package that depends on it, among the first j manifests of a crate. */
  function CrateEdges(c: Crate, j: nat, byManifest: map<string, Name>): set<(Name, Name)>
    requires j <= |c.manifests|
  {
    if j == 0 then {}
    else CrateEdges(c, j - 1, byManifest)
         + if c.manifests[j - 1] in byManifest then {(byManifest[c.manifests[j - 1]], c.id)} else {}
  }

  function CargoEdges(crates: seq<Crate>, byManifest: map<string, Name>): set<(Name, Name)> {
    if crates == [] then {}
    else
      var last := crates[|crates| - 1];
      CargoEdges(crates[..|crates| - 1], byManifest) + CrateEdges(last, |last.manifests|, byManifest)
  }

  ghost predicate Lists(edges: set<(Name, Name)>, reverse: map<Name, seq<Name>>) {
    forall u, p :: (u, p) in edges <==> u in reverse && p in reverse[u]
  }

  method ReverseDependencies(crates: seq<Crate>, byManifest: map<string, Name>) returns (reverse: map<Name, seq<Name>>)
    ensures Lists(CargoEdges(crates, byManifest), reverse)
  {
    reverse := map[];
    for i := 0 to |crates|
      invariant Lists(CargoEdges(crates[..i], byManifest), reverse)
    {
      ghost var before := CargoEdges(crates[..i], byManifest);
      var crate := crates[i];
      for j := 0 to |crate.manifests|
        invariant Lists(before + CrateEdges(crate, j, byManifest), reverse)
      {
        var manifest := crate.manifests[j];
        if manifest in byManifest {
          var unit := byManifest[manifest];
          reverse := reverse[unit := (if unit in reverse then reverse[unit] else []) + [crate.id]];
        }
      }
      assert crates[..i + 1][..i] == crates[..i];
    }
    assert crates[..|crates|] == crates;
  }

  /** Unit b owns a package that depends on unit a; an empty id leads nowhere. */
  function CargoDependents(edges: set<(Name, Name)>, byPackageId: map<Name, Name>): (Name, Name) -> bool {
    (a: Name, b: Name) => a.text != "" && b in UnitsAbove(edges, byPackageId, a)
  }

  function UnitsAbove(edges: set<(Name, Name)>, byPackageId: map<Name, Name>, a: Name): set<Name> {
    set p | p in byPackageId && (a, p) in edges :: byPackageId[p]
  }

  /** Units owning one of the listed packages. */
  function UnitsOf(ids: seq<Name>, i: nat, byPackageId: map<Name, Name>): set<Name>
    requires i <= |ids|
  {
    set j | 0 <= j < i && ids[j] in byPackageId :: byPackageId[ids[j]]
  }

  lemma {:induction false} UnitsListed(edges: set<(Name, Name)>, reverse: map<Name, seq<Name>>, byPackageId: map<Name, Name>, a: Name)
    requires Lists(edges, reverse)
    ensures var ids := if a in reverse then reverse[a] else [];
            UnitsOf(ids, |ids|, byPackageId) == UnitsAbove(edges, byPackageId, a)
  {
    var ids := if a in reverse then reverse[a] else [];
    forall p | p in byPackageId && (a, p) in edges
      ensures byPackageId[p] in UnitsOf(ids, |ids|, byPackageId)
    {
      var j :| 0 <= j < |ids| && ids[j] == p;
    }
  }

  /** One dequeued unit: select the units of every package that depends on it. */
  method VisitUnit(ids: seq<Name>, byPackageId: map<Name, Name>, selected: set<Name>, queue: seq<Name>)
    returns (selected': set<Name>, queue': seq<Name>, ghost added: seq<Name>)
    ensures selected' == selected + UnitsOf(ids, |ids|, byPackageId)
    ensures queue' == queue + added && Elems(added) == selected' - selected
  {
    selected', queue', added := selected, queue, [];
    for i := 0 to |ids|
      invariant selected' == selected + UnitsOf(ids, i, byPackageId)
      invariant queue' == queue + added && Elems(added) == selected' - selected
    {
      assert UnitsOf(ids, i + 1, byPackageId)
          == UnitsOf(ids, i, byPackageId) + if ids[i] in byPackageId then {byPackageId[ids[i]]} else {};
      if ids[i] in byPackageId && byPackageId[ids[i]] !in selected' {
        var unit := byPackageId[ids[i]];
        selected' := selected' + {unit};
        queue' := queue' + [unit];
        ElemsPush(added, unit);
        added := added + [unit];
      }
    }
  }

  /** The Cargo breadth-first search meets the same specification. */
  method ExpandCargoDependents(initial: seq<Name>, crates: seq<Crate>, byManifest: map<string, Name>, byPackageId: map<Name, Name>)
    returns (selected: set<Name>)
    ensures LeastClosed(Elems(initial), CargoDependents(CargoEdges(crates, byManifest), byPackageId), selected)
  {
    var reverse := ReverseDependencies(crates, byManifest);
    ghost var edges := CargoEdges(crates, byManifest);
    ghost var roots, leads, universe := Elems(initial), CargoDependents(edges, byPackageId), Elems(initial) + byPackageId.Values;
    selected := Elems(initial);
    var queue := initial;
    while queue != []
      invariant selected <= universe && Searching(roots, leads, selected, queue)
      decreases |universe - selected|, |queue|
    {
      var current := queue[0];
      if current.text == "" {
        SearchSkip(leads, roots, selected, queue);
        queue := queue[1..];
        continue;
      }
      var ids := if current in reverse then reverse[current] else [];
      ghost var waiting, before := queue, selected;
      ghost var added;
      selected, queue, added := VisitUnit(ids, byPackageId, selected, queue[1..]);
      UnitsListed(edges, reverse, byPackageId, current);
      SearchVisit(leads, roots, universe, before, waiting, UnitsOf(ids, |ids|, byPackageId), selected, added);
    }
    SearchDone(roots, leads, selected);
  }
}
