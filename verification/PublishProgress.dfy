/** A run that meets a healthy registry publishes what is missing, skips what is there, and returns every package. */
module PublishProgress {
  import opened Bytes
  import opened Dag
  import opened PublishController
  import opened PublishRuns
  import opened RegistryObservation
  import SemVer
  import opened Wrappers

  ghost predicate Leads(w: World, from: State, states: seq<State>, to: State) {
    && states != [] && states[0] == from && states[|states| - 1] == to
    && forall i | 0 <= i < |states| - 1 :: Next(w, states[i], states[i + 1])
  }

  ghost predicate Reaches(w: World, from: State, to: State) {
    exists states :: Leads(w, from, states, to)
  }

  lemma {:induction false} Stay(w: World, s: State)
    ensures Reaches(w, s, s)
  {
    assert Leads(w, s, [s], s);
  }

  lemma {:induction false} Go(w: World, from: State, s: State, step: Step, s': State)
    requires Reaches(w, from, s) && Takes(w, s, step, s')
    ensures Reaches(w, from, s')
  {
    assert Next(w, s, s');
    hide Next;
    var states :| Leads(w, from, states, s);
    var more := states + [s'];
    forall i | 0 <= i < |more| - 1
      ensures Next(w, more[i], more[i + 1])
    {
      if i < |states| - 1 { assert more[i] == states[i] && more[i + 1] == states[i + 1]; }
    }
    assert Leads(w, from, more, s');
  }

  lemma {:induction false} Chain(w: World, a: State, b: State, c: State)
    requires Reaches(w, a, b) && Reaches(w, b, c)
    ensures Reaches(w, a, c)
  {
    hide Next;
    var xs :| Leads(w, a, xs, b);
    var ys :| Leads(w, b, ys, c);
    var all := xs + ys[1..];
    forall i | 0 <= i < |all| - 1
      ensures Next(w, all[i], all[i + 1])
    {
      if i < |xs| - 1 {
        assert all[i] == xs[i] && all[i + 1] == xs[i + 1];
      } else {
        var k := i - (|xs| - 1);
        assert all[i] == ys[k] && all[i + 1] == ys[k + 1];
      }
    }
    assert all[|all| - 1] == c;
    assert Leads(w, a, all, c);
  }

  /** The retained tarball is right, and the policy can compare the version with itself. */
  predicate Publishable(w: World, p: Package) {
    && Retained(w.d, p)
    && (if w.policy.stable then SemVer.Stable(p.version) else w.policy.order(p.version, p.version) >= 0)
  }

  /** The run has not touched the package and may. */
  ghost predicate Waiting(w: World, s: State, k: nat, i: nat) {
    && k < |s.runs| && i < |w.plan| && |s.runs[k].work| == |w.plan|
    && s.runs[k].alive && s.runs[k].work[i] == [] && i !in s.runs[k].sent && Reached(w, s.runs[k], i)
  }

  lemma {:induction false} SeenIsExpected(d: Digests, policy: Policy, p: Package, dist: Dist)
    requires Retained(d, p) && dist.integrity == p.sri
    requires if policy.stable then SemVer.Stable(p.version) else policy.order(p.version, p.version) >= 0
    ensures Observe(d, policy, p, Some(Tagged(p.version, dist)), Some(dist), Some(p.tarball)) == Ok(Some(Expected(p)))
    ensures AssertExact(policy, p, Expected(p)).None?
  {
    hide Observe, AssertExact;
    LookAnswers(d, policy, p, Some(Tagged(p.version, dist)), Some(dist), Some(p.tarball));
    ExactIff(policy, p, Expected(p));
    if policy.stable { SemVer.CompareIsPrecedence(p.version, p.version); }
    hide SemVer.Precedes, SemVer.Stable, SemVer.CompareStableVersions;
  }

  /** What a run's package becomes after some events, everything else of the state kept. */
  ghost function Worked(s: State, k: nat, i: nat, events: seq<Event>): State
    requires k < |s.runs| && i < |s.runs[k].work|
  {
    Replace(s, k, s.runs[k].(work := s.runs[k].work[i := events]))
  }

  lemma {:induction false} DriveOne(t: Target, e: Event)
    ensures Drive(t, [e]) == Advance(t, Start, e)
  {
    assert [e][..0] == [];
  }

  lemma {:induction false} ReachedIgnoresOwn(w: World, r: Run, i: nat, r': Run)
    requires i < |w.plan| && |r.work| == |w.plan| && |r'.work| == |w.plan| && Reached(w, r, i)
    requires forall j | 0 <= j < |w.plan| && j != i :: r'.work[j] == r.work[j]
    ensures Reached(w, r', i)
  {
    hide Drive;
    forall j | 0 <= j < |w.plan| && w.stage[j] < w.stage[i]
      ensures HasReturned(w, r', j)
    {
      assert HasReturned(w, r, j);
    }
  }

  /** A look is a step whenever the controller waits for one. */
  lemma {:induction false} Looks(w: World, from: State, s: State, k: nat, i: nat, tag: Option<Tagged>, dist: Option<Dist>, download: Option<Bytes>, l: Looked)
    returns (s': State)
    requires Reaches(w, from, s) && k < |s.runs| && i < |w.plan| && |s.runs[k].work| == |w.plan|
    requires s.runs[k].alive && Reached(w, s.runs[k], i) && Drive(w.TargetAt(i), s.runs[k].work[i]).Some?
    requires Retained(w.d, w.plan[i]) && Truthful(w, s.registry, w.plan[i], dist)
    requires Observe(w.d, w.policy, w.plan[i], tag, dist, download) == l
    requires Advance(w.TargetAt(i), Drive(w.TargetAt(i), s.runs[k].work[i]).value, Look(l)).Some?
    ensures Reaches(w, from, s') && s' == Worked(s, k, i, s.runs[k].work[i] + [Look(l)])
    ensures Drive(w.TargetAt(i), s'.runs[k].work[i]) == Advance(w.TargetAt(i), Drive(w.TargetAt(i), s.runs[k].work[i]).value, Look(l))
  {
    DriveExtends(w.TargetAt(i), s.runs[k].work[i], Look(l));
    hide Drive, Advance, Observe, Reached, Retained, Reaches;
    s' := Worked(s, k, i, s.runs[k].work[i] + [Look(l)]);
    assert Takes(w, s, LookAt(k, i, tag, dist, download), s');
    Go(w, from, s, LookAt(k, i, tag, dist, download), s');
  }

  /** A look at a package that is registered with its bytes, under a tag that names it, ends the controller's work. */
  lemma {:induction false} LookSees(w: World, from: State, s: State, k: nat, i: nat) returns (s': State)
    requires Reaches(w, from, s) && k < |s.runs| && i < |w.plan| && |s.runs[k].work| == |w.plan|
    requires s.runs[k].alive && Reached(w, s.runs[k], i)
    requires var c := Drive(w.TargetAt(i), s.runs[k].work[i]); c.Some? && (c.value.Start? || c.value.Watching?)
    requires Publishable(w, w.plan[i]) && w.plan[i].name in s.registry && s.registry[w.plan[i].name] == w.plan[i].tarball
    ensures Reaches(w, from, s') && s' == Worked(s, k, i, s.runs[k].work[i] + [Look(Ok(Some(Expected(w.plan[i]))))])
    ensures HasReturned(w, s'.runs[k], i)
  {
    var p := w.plan[i];
    var dist := Dist(p.sri, "");
    assert Retained(w.d, p) && p.sri == w.d.sri(p.tarball);
    SeenIsExpected(w.d, w.policy, p, dist);
    hide Drive, Observe, Reached, Retained, Reaches, AssertExact;
    s' := Looks(w, from, s, k, i, Some(Tagged(p.version, dist)), Some(dist), Some(p.tarball), Ok(Some(Expected(p))));
  }

  /** A package that is already there with its bytes takes one look and no publish call. */
  lemma {:induction false} PresentIsSkipped(w: World, s: State, k: nat, i: nat) returns (s': State)
    requires Waiting(w, s, k, i) && Publishable(w, w.plan[i])
    requires w.plan[i].name in s.registry && s.registry[w.plan[i].name] == w.plan[i].tarball
    ensures s' == Worked(s, k, i, [Look(Ok(Some(Expected(w.plan[i]))))])
    ensures Reaches(w, s, s') && HasReturned(w, s'.runs[k], i)
  {
    assert Drive(w.TargetAt(i), []) == Some(Start);
    Stay(w, s);
    hide Drive, Reached, Retained, Reaches, HasReturned;
    s' := LookSees(w, s, s, k, i);
    assert [] + [Look(Ok(Some(Expected(w.plan[i]))))] == [Look(Ok(Some(Expected(w.plan[i]))))];
  }

  /** The events of a first publication. */
  function Published(p: Package): seq<Event> {
    [Look(Ok(None)), PublishCall(true), Look(Ok(Some(Expected(p))))]
  }

  lemma {:induction false} AbsentIsSeen(d: Digests, policy: Policy, p: Package)
    ensures Observe(d, policy, p, None, None, None) == Ok(None)
  {
    LookAnswers(d, policy, p, None, None, None);
  }

  /** Look, send, have the request taken, and end the call: the package is registered and the run watches for it. */
  lemma {:induction false} IsSent(w: World, s: State, k: nat, i: nat) returns (s': State)
    requires Waiting(w, s, k, i) && Retained(w.d, w.plan[i]) && w.plan[i].name !in s.registry
    ensures Reaches(w, s, s')
    ensures s' == Worked(s, k, i, [Look(Ok(None)), PublishCall(true)]).(registry := s.registry[w.plan[i].name := w.plan[i].tarball],
                                                                       requested := s.requested + {w.plan[i].name}, ours := s.ours + {w.plan[i].name})
    ensures Drive(w.TargetAt(i), s'.runs[k].work[i]) == Some(Watching(0))
  {
    var p, t, r := w.plan[i], w.TargetAt(i), s.runs[k];
    assert Drive(t, []) == Some(Start);
    Stay(w, s);
    AbsentIsSeen(w.d, w.policy, p);
    hide Observe, Retained, Reaches;
    var looked := Looks(w, s, s, k, i, None, None, None, Ok(None));
    assert [] + [Look(Ok(None))] == [Look(Ok(None))];
    hide Drive;
    ReachedIgnoresOwn(w, r, i, looked.runs[k]);
    hide Reached;
    var sent := Replace(looked, k, looked.runs[k].(sent := r.sent + {i})).(requested := s.requested + {p.name});
    assert Takes(w, looked, Send(k, i), sent);
    Go(w, s, looked, Send(k, i), sent);
    var applied := sent.(registry := s.registry[p.name := p.tarball], ours := s.ours + {p.name});
    assert Takes(w, sent, Apply(i), applied);
    Go(w, s, sent, Apply(i), applied);
    s' := CallEnds(w, s, applied, k, i);
    assert [Look(Ok(None))] + [PublishCall(true)] == [Look(Ok(None)), PublishCall(true)];
    assert r.sent + {i} - {i} == r.sent;
    assert s'.runs[k].work == r.work[i := [Look(Ok(None)), PublishCall(true)]];
    assert s'.runs == Worked(s, k, i, [Look(Ok(None)), PublishCall(true)]).runs;
  }

  lemma {:induction false} CallEnds(w: World, from: State, s: State, k: nat, i: nat) returns (s': State)
    requires Reaches(w, from, s) && k < |s.runs| && i < |w.plan| && |s.runs[k].work| == |w.plan| && s.runs[k].alive && i in s.runs[k].sent
    requires s.runs[k].work[i] == [Look(Ok(None))] && Drive(w.TargetAt(i), s.runs[k].work[i]) == Some(Publishing)
    requires Reached(w, s.runs[k], i)
    ensures Reaches(w, from, s')
    ensures s' == Replace(s, k, s.runs[k].(sent := s.runs[k].sent - {i}, work := s.runs[k].work[i := [Look(Ok(None))] + [PublishCall(true)]]))
    ensures Drive(w.TargetAt(i), s'.runs[k].work[i]) == Some(Watching(0))
  {
    DriveExtends(w.TargetAt(i), s.runs[k].work[i], PublishCall(true));
    hide Drive, Reached, Reaches;
    s' := Replace(s, k, s.runs[k].(sent := s.runs[k].sent - {i}, work := s.runs[k].work[i := [Look(Ok(None))] + [PublishCall(true)]]));
    assert Takes(w, s, EndPublish(k, i, true), s');
    Go(w, from, s, EndPublish(k, i, true), s');
  }

  /** A missing package is published with its bytes, seen, and returned. */
  lemma {:induction false} MissingIsPublished(w: World, s: State, k: nat, i: nat) returns (s': State)
    requires Waiting(w, s, k, i) && Publishable(w, w.plan[i]) && w.plan[i].name !in s.registry
    ensures s' == Worked(s, k, i, Published(w.plan[i])).(registry := s.registry[w.plan[i].name := w.plan[i].tarball],
                                                         requested := s.requested + {w.plan[i].name}, ours := s.ours + {w.plan[i].name})
    ensures Reaches(w, s, s') && HasReturned(w, s'.runs[k], i)
  {
    var sent := IsSent(w, s, k, i);
    ReachedIgnoresOwn(w, s.runs[k], i, sent.runs[k]);
    hide Drive, Reached, Retained, Reaches, HasReturned;
    s' := LookSees(w, s, sent, k, i);
    assert [Look(Ok(None)), PublishCall(true)] + [Look(Ok(Some(Expected(w.plan[i]))))] == Published(w.plan[i]);
    assert s'.runs == Worked(s, k, i, Published(w.plan[i])).runs by {
      assert s'.runs[k].work == s.runs[k].work[i := Published(w.plan[i])];
    }
  }

  // ---- The whole plan ----

  /** Every package has returned in the run, or waits untouched and is either missing or registered with its bytes. */
  ghost predicate OnTrack(w: World, s: State, k: nat) {
    && k < |s.runs| && s.runs[k].alive && |s.runs[k].work| == |w.plan| && s.runs[k].sent == {}
    && forall i | 0 <= i < |w.plan| :: HasReturned(w, s.runs[k], i) || Untouched(w, s, k, i)
  }

  ghost predicate Untouched(w: World, s: State, k: nat, i: nat)
    requires k < |s.runs| && i < |w.plan| && i < |s.runs[k].work|
  {
    s.runs[k].work[i] == [] && (w.plan[i].name in s.registry ==> s.registry[w.plan[i].name] == w.plan[i].tarball)
  }

  ghost function Left(w: World, s: State, k: nat): set<nat>
    requires k < |s.runs|
  {
    set i | 0 <= i < |w.plan| && !HasReturned(w, s.runs[k], i)
  }

  /** The unreturned package of the lowest stage may go. */
  lemma {:induction false} LowestMayGo(w: World, s: State, k: nat, left: set<nat>) returns (i: nat)
    requires |w.stage| == |w.plan| && k < |s.runs| && left != {} && forall j | j in left :: j < |w.plan|
    ensures i in left && forall j | j in left :: w.stage[i] <= w.stage[j]
    decreases |left|
  {
    i :| i in left;
    if left - {i} != {} {
      var j := LowestMayGo(w, s, k, left - {i});
      if w.stage[j] < w.stage[i] { i := j; }
    }
  }

  /**
   * From any start, with some packages registered by earlier runs and the rest missing, a run that meets no failure
   * returns every package of the plan, stage by stage, and leaves each registered with its bytes.
   */
  lemma {:induction false} PlanIsPublished(w: World, s: State, k: nat) returns (s': State)
    requires Planned(w) && OnTrack(w, s, k) && forall i | 0 <= i < |w.plan| :: Publishable(w, w.plan[i])
    ensures Reaches(w, s, s') && OnTrack(w, s', k) && forall i | 0 <= i < |w.plan| :: HasReturned(w, s'.runs[k], i)
    decreases |Left(w, s, k)|
  {
    hide HasReturned, Reaches, Publishable;
    var left := Left(w, s, k);
    if left == {} {
      s' := s;
      Stay(w, s);
      forall i | 0 <= i < |w.plan|
        ensures HasReturned(w, s.runs[k], i)
      {
        assert i !in left;
      }
    } else {
      var i := LowestMayGo(w, s, k, left);
      var next := OneMore(w, s, k, i);
      s' := PlanIsPublished(w, next, k);
      Chain(w, s, next, s');
    }
  }

  lemma {:induction false} OneMore(w: World, s: State, k: nat, i: nat) returns (s': State)
    requires Planned(w) && OnTrack(w, s, k) && i < |w.plan| && Publishable(w, w.plan[i]) && !HasReturned(w, s.runs[k], i)
    requires forall j | 0 <= j < |w.plan| && !HasReturned(w, s.runs[k], j) :: w.stage[i] <= w.stage[j]
    ensures Reaches(w, s, s') && OnTrack(w, s', k) && |Left(w, s', k)| < |Left(w, s, k)|
  {
    hide HasReturned, Retained, Reaches, Drive;
    assert Reached(w, s.runs[k], i);
    var events := Published(w.plan[i]);
    if w.plan[i].name in s.registry {
      s' := PresentIsSkipped(w, s, k, i);
      events := [Look(Ok(Some(Expected(w.plan[i]))))];
    } else {
      s' := MissingIsPublished(w, s, k, i);
    }
    OneLess(w, s, k, i, events, s');
  }

  lemma {:induction false} OneLess(w: World, s: State, k: nat, i: nat, events: seq<Event>, s': State)
    requires Planned(w) && OnTrack(w, s, k) && i < |w.plan| && !HasReturned(w, s.runs[k], i)
    requires s'.runs == Worked(s, k, i, events).runs && HasReturned(w, s'.runs[k], i)
    requires s'.registry == s.registry || s'.registry == s.registry[w.plan[i].name := w.plan[i].tarball]
    ensures OnTrack(w, s', k) && |Left(w, s', k)| < |Left(w, s, k)|
  {
    var r, r' := s.runs[k], s'.runs[k];
    forall j | 0 <= j < |w.plan| && j != i
      ensures HasReturned(w, r', j) <==> HasReturned(w, r, j)
    {
      assert r'.work[j] == r.work[j];
    }
    hide HasReturned;
    assert Left(w, s, k) == Left(w, s', k) + {i};
  }
}
