/** What one look at the registry reports, and when it matches the expected evidence. */
module RegistryObservation {
  import opened Bytes
  import opened Dag
  import opened SemVer
  import opened Wrappers

  /** Manifest bytes and internal dependencies of a package tarball. */
  datatype Inspection = Inspection(manifest: Bytes, dependencies: map<Name, string>)

  /** Hashes are uninterpreted; inspecting a malformed tarball fails. */
  datatype Digests = Digests(sri: Bytes -> string, sha512: Bytes -> string, sha256: Bytes -> string, inspect: Bytes -> Option<Inspection>) {

    /** The integrity string determines the bytes. */
    ghost predicate Injective() {
      forall a, b | sri(a) == sri(b) :: a == b
    }
  }

  /** A record, its expected digests, and the tarball retained for it. */
  datatype Package = Package(name: Name, version: string, sri: string, sha512: string, manifest: string,
                             dependencies: map<Name, string>, tarball: Bytes)

  /** The retained tarball reproduces the expected evidence. */
  predicate Retained(d: Digests, p: Package) {
    && p.sri == d.sri(p.tarball) && p.sha512 == d.sha512(p.tarball)
    && d.inspect(p.tarball).Some?
    && p.manifest == d.sha256(d.inspect(p.tarball).value.manifest)
    && p.dependencies == d.inspect(p.tarball).value.dependencies
  }

  datatype Policy = Policy(stable: bool, order: (string, string) -> int)
  datatype Dist = Dist(integrity: string, tarball: string)
  datatype Tagged = Tagged(version: string, dist: Dist)
  datatype Observation = Observation(sri: string, sha512: string, manifest: string, dependencies: map<Name, string>, latest: Option<string>)

  datatype PublishError =
    | InvalidTarball | UnsupportedVersion | TagIsNewer | TagIsAbsent | IntegrityConflict | TagNotExpected
    | DownloadFailed | InspectionFailed | ManifestConflict | EvidenceConflict
    | TagMissing | TagRegressed | PublishFailed | NeverVisible

  /** Errors an eventually consistent registry shows briefly after a publish. */
  predicate Transient(e: PublishError) {
    e.TagIsAbsent? || e.TagNotExpected?
  }

  datatype Class = Publish | Skip | Conflict

  function Classify(p: Package, o: Option<Observation>): Class {
    if o.None? then Publish
    else if o.value.sri == p.sri && o.value.sha512 == p.sha512 && o.value.manifest == p.manifest
            && o.value.dependencies == p.dependencies
    then Skip else Conflict
  }

  /** Does the tag name a version above the target? */
  function TargetIsOlder(policy: Policy, target: string, tagged: string): Result<bool, PublishError> {
    if policy.stable then
      match CompareStableVersions(target, tagged)
      case Ok(c) => Ok(c < 0)
      case Err(_) => Err(UnsupportedVersion)
    else Ok(policy.order(target, tagged) < 0)
  }

  /** One look: the tag document, then the version document, then the tarball the latter points to. */
  function Observe(d: Digests, policy: Policy, p: Package, tag: Option<Tagged>, dist: Option<Dist>, download: Option<Bytes>)
    : Result<Option<Observation>, PublishError>
  {
    var older :- if tag.Some? then TargetIsOlder(policy, p.version, tag.value.version) else Ok(false);
    if older then Err(TagIsNewer)
    else if dist.None? then Ok(None)
    else if tag.None? then Err(TagIsAbsent)
    else if dist.value.integrity != p.sri then Err(IntegrityConflict)
    else if tag.value.version != p.version || tag.value.dist != dist.value then Err(TagNotExpected)
    else if download.None? || d.sri(download.value) != p.sri then Err(DownloadFailed)
    else if d.inspect(p.tarball).None? || d.inspect(download.value).None? then Err(InspectionFailed)
    else
      var inspection := d.inspect(download.value).value;
      if d.inspect(p.tarball).value.manifest != inspection.manifest then Err(ManifestConflict)
      else
        var o := Observation(dist.value.integrity, d.sha512(download.value), d.sha256(inspection.manifest),
                             inspection.dependencies, Some(tag.value.version));
        if Classify(p, Some(o)).Conflict? then Err(EvidenceConflict) else Ok(Some(o))
  }

  /** The check every returned observation has passed. */
  function AssertExact(policy: Policy, p: Package, o: Observation): Option<PublishError> {
    if o.latest.None? then Some(TagMissing)
    else
      var regressed := if policy.stable then TargetIsOlder(policy, o.latest.value, p.version) else Ok(false);
      match regressed
      case Err(e) => Some(e)
      case Ok(true) => Some(TagRegressed)
      case Ok(false) =>
        if o.latest.value != p.version || !Classify(p, Some(o)).Skip? then Some(EvidenceConflict) else None
  }

  /** An observation passes exactly when it carries the expected evidence under a tag naming this version. */
  lemma {:induction false} ExactIff(policy: Policy, p: Package, o: Observation)
    ensures AssertExact(policy, p, o).None? <==>
            && o == Observation(p.sri, p.sha512, p.manifest, p.dependencies, Some(p.version))
            && (policy.stable ==> Stable(p.version))
  {
    if Stable(p.version) { CompareIsPrecedence(p.version, p.version); }
  }

  /** The tag names a version that comes after the package's. */
  predicate Overtaken(policy: Policy, p: Package, tagged: string) {
    if policy.stable then Precedes(p.version, tagged) else policy.order(p.version, tagged) < 0
  }

  /** What a look answers to each state of the registry: absence, lag, conflict, a newer tag, or the package itself. */
  lemma {:induction false} LookAnswers(d: Digests, policy: Policy, p: Package, tag: Option<Tagged>, dist: Option<Dist>, download: Option<Bytes>)
    ensures var look := Observe(d, policy, p, tag, dist, download);
            if tag.None? then look == if dist.None? then Ok(None) else Err(TagIsAbsent)
            else if policy.stable && !(Stable(p.version) && Stable(tag.value.version)) then look == Err(UnsupportedVersion)
            else if Overtaken(policy, p, tag.value.version) then look == Err(TagIsNewer)
            else if dist.None? then look == Ok(None)
            else if dist.value.integrity != p.sri then look == Err(IntegrityConflict)
            else if tag.value != Tagged(p.version, dist.value) then look == Err(TagNotExpected)
            else
              && (look.Ok? ==> look.value.Some?)
              && (download == Some(p.tarball) && Retained(d, p) ==>
                    look == Ok(Some(Observation(p.sri, d.sha512(p.tarball), d.sha256(d.inspect(p.tarball).value.manifest),
                                                d.inspect(p.tarball).value.dependencies, Some(p.version)))))
  {
    hide TargetIsOlder, Overtaken, Stable;
    if tag.Some? { OlderIff(policy, p, tag.value.version); }
  }

  lemma {:induction false} OlderIff(policy: Policy, p: Package, tagged: string)
    ensures TargetIsOlder(policy, p.version, tagged)
            == if policy.stable && !(Stable(p.version) && Stable(tagged)) then Err(UnsupportedVersion) else Ok(Overtaken(policy, p, tagged))
  {
    if Stable(p.version) && Stable(tagged) { CompareIsPrecedence(p.version, tagged); }
    hide Precedes, Stable;
  }

  /** A look that reports the package reports it exactly, whatever the download served. */
  lemma {:induction false} ObservedIsExact(d: Digests, policy: Policy, p: Package, tag: Option<Tagged>, dist: Option<Dist>, download: Option<Bytes>)
    requires Observe(d, policy, p, tag, dist, download).Ok? && Observe(d, policy, p, tag, dist, download).value.Some?
    ensures AssertExact(policy, p, Observe(d, policy, p, tag, dist, download).value.value).None?
    ensures dist.Some? && dist.value.integrity == p.sri
  {
    ExactIff(policy, p, Observe(d, policy, p, tag, dist, download).value.value);
    if Stable(p.version) { CompareIsPrecedence(p.version, p.version); }
  }
}

/** Publication of one package as a controller over observation and publish outcomes. */
module PublishController {
  import opened Bytes
  import opened RegistryObservation
  import SemVer
  import opened Wrappers

  type Looked = Result<Option<Observation>, PublishError>

  /** What the controller learns: one look at the registry, or the end of one publish call. */
  datatype Event = Look(outcome: Looked) | PublishCall(succeeded: bool)

  datatype Control =
    | Start
    | Publishing
    | AfterFailure
    | Watching(attempt: nat)
    | Returned(observation: Observation)
    | Threw(error: PublishError)

  datatype Target = Target(package: Package, policy: Policy, retries: nat)

  function Settle(t: Target, o: Observation): Control {
    match AssertExact(t.policy, t.package, o)
    case None => Returned(o)
    case Some(e) => Threw(e)
  }

  /** The next control state; None when the controller is not waiting for such an event. */
  function Advance(t: Target, c: Control, e: Event): Option<Control> {
    match (c, e)
    case (Start, Look(Ok(None))) => Some(Publishing)
    case (AfterFailure, Look(Ok(None))) => Some(Threw(PublishFailed))
    case (Watching(k), Look(Ok(None))) => Some(if k < t.retries then Watching(k + 1) else Threw(NeverVisible))
    case (Watching(k), Look(Err(error))) =>
      Some(if k < t.retries && Transient(error) then Watching(k + 1) else Threw(error))
    case (Publishing, PublishCall(ok)) => Some(if ok then Watching(0) else AfterFailure)
    case (_, Look(Ok(Some(o)))) => if c.Start? || c.AfterFailure? || c.Watching? then Some(Settle(t, o)) else None
    case (_, Look(Err(error))) => if c.Start? || c.AfterFailure? then Some(Threw(error)) else None
    case _ => None
  }

  /** The control state after a whole event sequence. */
  function Drive(t: Target, events: seq<Event>): Option<Control> {
    if events == [] then Some(Start)
    else
      var n := |events| - 1;
      match Drive(t, events[..n])
      case None => None
      case Some(c) => Advance(t, c, events[n])
  }

  function Ended(c: Control): Option<Result<Observation, PublishError>> {
    match c
    case Returned(o) => Some(Ok(o))
    case Threw(e) => Some(Err(e))
    case _ => None
  }

  lemma {:induction false} DriveExtends(t: Target, events: seq<Event>, e: Event)
    requires Drive(t, events).Some?
    ensures Drive(t, events + [e]) == Advance(t, Drive(t, events).value, e)
  {
    assert (events + [e])[..|events|] == events;
  }

  /** Events consistent with scripted outcomes: the k-th look reports look(k). */
  predicate Scripted(events: seq<Event>, look: nat -> Looked, publish: bool) {
    forall i | 0 <= i < |events| ::
      match events[i]
      case Look(outcome) => outcome == look(if i < 1 then i else i - 1)
      case PublishCall(ok) => i == 1 && ok == publish
  }

  /** The registry does not show the version yet, or its tag still lags behind. */
  predicate Lags(l: Looked) {
    l == Ok(None) || l == Err(TagIsAbsent) || l == Err(TagNotExpected)
  }

  /** A look lags exactly when the version document is missing or right, and the tag is missing or names another. */
  lemma {:induction false} LookLagsIff(d: Digests, policy: Policy, p: Package, tag: Option<Tagged>, dist: Option<Dist>, download: Option<Bytes>)
    ensures Lags(Observe(d, policy, p, tag, dist, download)) <==>
            if tag.None? then true
            else
              && (policy.stable ==> SemVer.Stable(p.version) && SemVer.Stable(tag.value.version)) && !Overtaken(policy, p, tag.value.version)
              && (dist.Some? ==> dist.value.integrity == p.sri && tag.value != Tagged(p.version, dist.value))
  {
    LookAnswers(d, policy, p, tag, dist, download);
    if tag.Some? && dist.Some? && tag.value == Tagged(p.version, dist.value) && dist.value.integrity == p.sri {
      LookErrors(d, policy, p, tag, dist, download);
    }
    hide Observe, Overtaken, SemVer.Stable;
  }

  lemma {:induction false} LookErrors(d: Digests, policy: Policy, p: Package, tag: Option<Tagged>, dist: Option<Dist>, download: Option<Bytes>)
    requires tag.Some? && dist.Some? && tag.value == Tagged(p.version, dist.value) && dist.value.integrity == p.sri
    ensures Observe(d, policy, p, tag, dist, download) != Err(TagIsAbsent) && Observe(d, policy, p, tag, dist, download) != Err(TagNotExpected)
  {
    hide SemVer.CompareStableVersions;
  }

  /** The observation that carries exactly the expected evidence under a tag naming this version. */
  function Expected(p: Package): Observation {
    Observation(p.sri, p.sha512, p.manifest, p.dependencies, Some(p.version))
  }

  /** What a call that stops at this look gives: the look's error, the exact observation, or some error. */
  predicate StopsAt(t: Target, l: Looked, r: Result<Observation, PublishError>) {
    match l
    case Err(e) => r == Err(e)
    case Ok(None) => r.Err?
    case Ok(Some(o)) =>
      if o == Expected(t.package) && (t.policy.stable ==> SemVer.Stable(t.package.version)) then r == Ok(o) else r.Err?
  }

  /** The k-th look after the publish call decides: all before it lag, and it does not or is the last allowed. */
  ghost predicate Decides(t: Target, look: nat -> Looked, k: nat) {
    1 <= k <= t.retries + 1 && (forall i: nat | 1 <= i < k :: Lags(look(i))) && (k == t.retries + 1 || !Lags(look(k)))
  }

  predicate DecidedAt(t: Target, look: nat -> Looked, k: nat, r: Result<Observation, PublishError>) {
    StopsAt(t, look(k), r) && (look(k) == Ok(None) ==> r == Err(NeverVisible))
  }

  lemma {:induction false} OneDecides(t: Target, look: nat -> Looked, k: nat, k': nat)
    requires Decides(t, look, k) && Decides(t, look, k')
    ensures k == k'
  {
  }

  lemma {:induction false} CheckedStops(t: Target, o: Observation)
    ensures StopsAt(t, Ok(Some(o)), Checked(t, o)) && Ended(Settle(t, o)) == Some(Checked(t, o))
  {
    ExactIff(t.policy, t.package, o);
  }

  lemma {:induction false} ErrorStops(t: Target, e: PublishError)
    ensures StopsAt(t, Err(e), Err(e)) && StopsAt(t, Ok(None), Err(e))
  {
  }

  /** The bounded re-observation after a successful publish call. */
  method AwaitVisibility(t: Target, look: nat -> Looked, before: seq<Event>)
    returns (r: Result<Observation, PublishError>, events: seq<Event>)
    requires |before| == 2 && Drive(t, before) == Some(Watching(0)) && Scripted(before, look, true)
    ensures Drive(t, events).Some? && Ended(Drive(t, events).value) == Some(r) && Scripted(events, look, true)
    ensures forall k: nat | Decides(t, look, k) :: DecidedAt(t, look, k, r) && |events| == k + 2
  {
    hide AssertExact, Drive, Checked, Settle, StopsAt;
    events := before;
    var attempt := 0;
    while true
      invariant |events| == attempt + 2 && attempt <= t.retries && forall i: nat | 1 <= i <= attempt :: Lags(look(i))
      invariant Drive(t, events) == Some(Watching(attempt)) && Scripted(events, look, true)
      decreases t.retries - attempt
    {
      var observed := look(attempt + 1);
      DriveExtends(t, events, Look(observed));
      events := events + [Look(observed)];
      if observed.Err? {
        if attempt < t.retries && Transient(observed.error) {
          attempt := attempt + 1;
          continue;
        }
        r := Err(observed.error);
        ErrorStops(t, observed.error);
        break;
      }
      if observed.value.Some? {
        r := Checked(t, observed.value.value);
        CheckedStops(t, observed.value.value);
        break;
      }
      if attempt >= t.retries {
        r := Err(NeverVisible);
        ErrorStops(t, NeverVisible);
        break;
      }
      attempt := attempt + 1;
    }
    forall k: nat | Decides(t, look, k)
      ensures k == attempt + 1
    {
      OneDecides(t, look, k, attempt + 1);
    }
  }

  /** publishRetainedPackage over scripted outcomes; `events` is what it did. */
  method PublishRetainedPackage(d: Digests, t: Target, look: nat -> Looked, publish: bool)
    returns (r: Result<Observation, PublishError>, events: seq<Event>)
    ensures !Retained(d, t.package) ==> r == Err(InvalidTarball) && events == []
    ensures Retained(d, t.package) ==>
              Drive(t, events).Some? && Ended(Drive(t, events).value) == Some(r) && Scripted(events, look, publish)
    // What comes out, on the looks alone.
    ensures Retained(d, t.package) && look(0) != Ok(None) ==> StopsAt(t, look(0), r) && |events| == 1
    ensures Retained(d, t.package) && look(0) == Ok(None) && !publish ==>
              StopsAt(t, look(1), r) && (look(1) == Ok(None) ==> r == Err(PublishFailed)) && |events| == 3
    ensures Retained(d, t.package) && look(0) == Ok(None) && publish ==>
              forall k: nat | Decides(t, look, k) :: DecidedAt(t, look, k, r) && |events| == k + 2
  {
    hide AssertExact, Checked, Settle, StopsAt, DecidedAt, Decides;
    events := [];
    if !Retained(d, t.package) {
      return Err(InvalidTarball), events;
    }
    var existing := look(0);
    DriveExtends(t, events, Look(existing));
    events := events + [Look(existing)];
    if existing.Err? {
      ErrorStops(t, existing.error);
      return Err(existing.error), events;
    }
    if existing.value.Some? {
      r := Checked(t, existing.value.value);
      CheckedStops(t, existing.value.value);
      return;
    }
    DriveExtends(t, events, PublishCall(publish));
    events := events + [PublishCall(publish)];
    if !publish {
      var raced := look(1);
      DriveExtends(t, events, Look(raced));
      events := events + [Look(raced)];
      ErrorStops(t, if raced.Err? then raced.error else PublishFailed);
      if raced.Err? {
        return Err(raced.error), events;
      }
      if raced.value.Some? {
        r := Checked(t, raced.value.value);
        CheckedStops(t, raced.value.value);
        return;
      }
      return Err(PublishFailed), events;
    }
    r, events := AwaitVisibility(t, look, events);
  }

  function Checked(t: Target, o: Observation): Result<Observation, PublishError> {
    match AssertExact(t.policy, t.package, o)
    case None => Ok(o)
    case Some(e) => Err(e)
  }

  // ---- What every event sequence looks like ----

  /** Publish is called at most once, right after a first look that found nothing. */
  lemma {:induction false} PublishOnceAfterAbsence(t: Target, events: seq<Event>)
    requires Drive(t, events).Some?
    ensures forall i | 0 <= i < |events| && events[i].PublishCall? :: i == 1 && events[0] == Look(Ok(None))
    ensures events == [] <==> Drive(t, events) == Some(Start)
    ensures Drive(t, events) == Some(Publishing) <==> |events| == 1 && events[0] == Look(Ok(None))
  {
    if events != [] {
      var n := |events| - 1;
      PublishOnceAfterAbsence(t, events[..n]);
    }
  }

  /** The controller returns only an observation it has just made and checked. */
  lemma {:induction false} ReturnsWhatItSaw(t: Target, events: seq<Event>)
    requires Drive(t, events).Some? && Drive(t, events).value.Returned?
    ensures events != [] && events[|events| - 1] == Look(Ok(Some(Drive(t, events).value.observation)))
    ensures AssertExact(t.policy, t.package, Drive(t, events).value.observation).None?
  {
  }

  /** No event sequence is longer than the first look, the publish call and the bounded visibility looks. */
  lemma {:induction false} EventsAreBounded(t: Target, events: seq<Event>)
    requires Drive(t, events).Some?
    ensures |events| <= t.retries + 3
    ensures Drive(t, events).value.Watching? ==> |events| == Drive(t, events).value.attempt + 2 && Drive(t, events).value.attempt <= t.retries
    ensures Drive(t, events).value.AfterFailure? ==> |events| == 2
  {
    if events != [] {
      EventsAreBounded(t, events[..|events| - 1]);
      PublishOnceAfterAbsence(t, events[..|events| - 1]);
    }
  }
}

/**
 * Any number of publication runs, started, crashed and resumed at any time, against a registry that accepts
 * each name once, answers with stale absences, and may apply a publish request long after it was sent. A run may
 * work on all packages of a stage at once, and on a stage only when all earlier stages have returned.
 */
module PublishRuns {
  import opened Bytes
  import opened Dag
  import PublishPlan
  import PublishWaves
  import opened PublishController
  import opened RegistryObservation
  import opened Wrappers

  /** `stage[i]` is when the i-th package may go: its position when published one by one, its wave otherwise. */
  datatype World = World(d: Digests, policy: Policy, retries: nat, plan: seq<Package>, stage: seq<nat>) {
    function TargetAt(i: nat): Target
      requires i < |plan|
    {
      Target(plan[i], policy, retries)
    }
  }

  /** `work[i]` drives the i-th planned package; `sent` marks publish calls that have not ended. */
  datatype Run = Run(work: seq<seq<Event>>, sent: set<nat>, alive: bool)

  /** `requested` holds every name ever sent for publication, `ours` those the registry took from such a request. */
  datatype State = State(registry: map<Name, Bytes>, runs: seq<Run>, requested: set<Name>, ours: set<Name>)

  datatype Step =
    | Begin
    | LookAt(run: nat, index: nat, tag: Option<Tagged>, dist: Option<Dist>, download: Option<Bytes>)
    | Send(run: nat, index: nat)
    | EndPublish(run: nat, index: nat, succeeded: bool)
    | Apply(index: nat)
    | Foreign(name: Name, tarball: Bytes)
    | Crash(run: nat)

  /** The retained tarball is the expected one, and the registry holds it by integrity. */
  predicate Exact(w: World, registry: map<Name, Bytes>, p: Package) {
    Retained(w.d, p) && p.name in registry && w.d.sri(registry[p.name]) == p.sri
  }

  /** A version document is never invented, though it may be missing. */
  predicate Truthful(w: World, registry: map<Name, Bytes>, p: Package, dist: Option<Dist>) {
    dist.Some? ==> p.name in registry && dist.value.integrity == w.d.sri(registry[p.name])
  }

  function ControlOf(w: World, r: Run, i: nat): Option<Control> {
    if i < |w.plan| && i < |r.work| then Drive(w.TargetAt(i), r.work[i]) else None
  }

  predicate HasReturned(w: World, r: Run, i: nat) {
    ControlOf(w, r, i).Some? && ControlOf(w, r, i).value.Returned?
  }

  /** All packages of earlier stages have returned. */
  predicate Reached(w: World, r: Run, i: nat) {
    && i < |w.plan| && |w.stage| == |w.plan|
    && forall j | 0 <= j < |w.plan| && w.stage[j] < w.stage[i] :: HasReturned(w, r, j)
  }

  /** The controller of a package a live run may work on. */
  predicate Working(w: World, r: Run, i: nat) {
    r.alive && Reached(w, r, i) && ControlOf(w, r, i).Some?
  }

  function Replace(s: State, i: nat, r: Run): State
    requires i < |s.runs|
  {
    s.(runs := s.runs[i := r])
  }

  function Fresh(w: World): Run {
    Run(seq(|w.plan|, _ => []), {}, true)
  }

  ghost predicate Takes(w: World, s: State, step: Step, s': State) {
    match step
    case Begin => s' == s.(runs := s.runs + [Fresh(w)])
    case LookAt(k, i, tag, dist, download) =>
      && k < |s.runs| && Working(w, s.runs[k], i)
      && var r, t := s.runs[k], w.TargetAt(i);
         var events := r.work[i] + [Look(Observe(w.d, w.policy, t.package, tag, dist, download))];
         && Retained(w.d, t.package) && Truthful(w, s.registry, t.package, dist) && Drive(t, events).Some?
         && s' == Replace(s, k, r.(work := r.work[i := events]))
    case Send(k, i) =>
      && k < |s.runs| && Working(w, s.runs[k], i) && ControlOf(w, s.runs[k], i) == Some(Publishing) && i !in s.runs[k].sent
      && s' == Replace(s, k, s.runs[k].(sent := s.runs[k].sent + {i})).(requested := s.requested + {w.plan[i].name})
    case EndPublish(k, i, succeeded) =>
      && k < |s.runs| && Working(w, s.runs[k], i) && ControlOf(w, s.runs[k], i) == Some(Publishing) && i in s.runs[k].sent
      && var r := s.runs[k];
         s' == Replace(s, k, r.(sent := r.sent - {i}, work := r.work[i := r.work[i] + [PublishCall(succeeded)]]))
    case Apply(i) =>
      && i < |w.plan| && w.plan[i].name in s.requested && w.plan[i].name !in s.registry
      && s' == s.(registry := s.registry[w.plan[i].name := w.plan[i].tarball], ours := s.ours + {w.plan[i].name})
    case Foreign(n, tarball) => n !in s.registry && s' == s.(registry := s.registry[n := tarball])
    case Crash(k) => k < |s.runs| && s' == Replace(s, k, s.runs[k].(alive := false))
  }

  // ---- Invariant ----

  /** The plan names each package once, dependencies in earlier stages. */
  ghost predicate Planned(w: World) {
    && |w.stage| == |w.plan|
    && (forall i, j | 0 <= i < j < |w.plan| :: w.plan[i].name != w.plan[j].name)
    && forall i, n | 0 <= i < |w.plan| && n in w.plan[i].dependencies ::
         exists j | 0 <= j < |w.plan| :: w.plan[j].name == n && w.stage[j] < w.stage[i]
  }

  ghost predicate PackageInv(w: World, registry: map<Name, Bytes>, r: Run, i: nat)
    requires i < |w.plan|
  {
    && ControlOf(w, r, i).Some?
    && (i in r.sent ==> ControlOf(w, r, i).value.Publishing?)
    && (HasReturned(w, r, i) ==> Exact(w, registry, w.plan[i]))
    && (r.work[i] != [] ==> Reached(w, r, i))
  }

  ghost predicate RunInv(w: World, registry: map<Name, Bytes>, r: Run) {
    && |r.work| == |w.plan| && (forall i | i in r.sent :: i < |w.plan|)
    && forall i | 0 <= i < |w.plan| :: PackageInv(w, registry, r, i)
  }

  /** Every dependency of the i-th package is in the registry with its expected bytes. */
  ghost predicate Supported(w: World, registry: map<Name, Bytes>, i: nat)
    requires i < |w.plan|
  {
    forall j | 0 <= j < |w.plan| && w.plan[j].name in w.plan[i].dependencies :: Exact(w, registry, w.plan[j])
  }

  ghost predicate Inv(w: World, s: State) {
    && (forall r | 0 <= r < |s.runs| :: RunInv(w, s.registry, s.runs[r]))
    && (forall i | 0 <= i < |w.plan| && w.plan[i].name in s.requested :: Supported(w, s.registry, i))
    && s.ours <= s.requested
    && forall n | n in s.ours :: exists i | 0 <= i < |w.plan| ::
         w.plan[i].name == n && n in s.registry && s.registry[n] == w.plan[i].tarball
  }

  ghost predicate Init(s: State) {
    s.runs == [] && s.requested == {} && s.ours == {}
  }

  ghost predicate Next(w: World, s: State, s': State) {
    exists step :: Takes(w, s, step, s')
  }

  ghost predicate Behaviour(w: World, states: seq<State>) {
    states != [] && Init(states[0]) && forall i | 0 <= i < |states| - 1 :: Next(w, states[i], states[i + 1])
  }

  /** Names are never removed or replaced. */
  ghost predicate Grows(before: map<Name, Bytes>, after: map<Name, Bytes>) {
    forall n | n in before :: n in after && after[n] == before[n]
  }

  lemma {:induction false} RunInvGrows(w: World, before: map<Name, Bytes>, after: map<Name, Bytes>, r: Run)
    requires Grows(before, after) && RunInv(w, before, r)
    ensures RunInv(w, after, r)
  {
    hide Reached, ControlOf, Retained;
    forall i | 0 <= i < |w.plan|
      ensures PackageInv(w, after, r, i)
    {
      assert PackageInv(w, before, r, i);
    }
  }

  /** A look that reports the package proves it exact in the registry. */
  lemma {:induction false} SeenIsExact(w: World, registry: map<Name, Bytes>, t: Target, tag: Option<Tagged>, dist: Option<Dist>, download: Option<Bytes>, c: Control)
    requires t.policy == w.policy && Retained(w.d, t.package) && Truthful(w, registry, t.package, dist)
    requires var next := Advance(t, c, Look(Observe(w.d, w.policy, t.package, tag, dist, download)));
             next.Some? && next.value.Returned?
    ensures Exact(w, registry, t.package)
  {
    ObservedIsExact(w.d, w.policy, t.package, tag, dist, download);
  }

  /** A finished package takes no further event. */
  lemma {:induction false} ReturnedIsFinal(t: Target, events: seq<Event>, e: Event)
    requires Drive(t, events).Some? && Drive(t, events + [e]).Some?
    ensures !Drive(t, events).value.Returned?
  {
    DriveExtends(t, events, e);
    hide Drive, AssertExact;
  }

  /** One more event for one package keeps what was reached, for it and for all others. */
  lemma {:induction false} ReachedStays(w: World, r: Run, i: nat, e: Event, r': Run, j: nat)
    requires |r.work| == |w.plan| && i < |w.plan| && ControlOf(w, r, i).Some? && Drive(w.TargetAt(i), r.work[i] + [e]).Some?
    requires r'.work == r.work[i := r.work[i] + [e]] && Reached(w, r, j)
    ensures Reached(w, r', j)
  {
    hide HasReturned, Drive, ControlOf;
    NotYetReturned(w, r, i, e);
    forall k | 0 <= k < |w.plan| && w.stage[k] < w.stage[j]
      ensures HasReturned(w, r', k)
    {
      assert HasReturned(w, r, k) && k != i;
      SameWorkReturned(w, r, r', k);
    }
  }

  lemma {:induction false} NotYetReturned(w: World, r: Run, i: nat, e: Event)
    requires |r.work| == |w.plan| && i < |w.plan| && ControlOf(w, r, i).Some? && Drive(w.TargetAt(i), r.work[i] + [e]).Some?
    ensures !HasReturned(w, r, i)
  {
    hide Drive;
    ReturnedIsFinal(w.TargetAt(i), r.work[i], e);
  }

  lemma {:induction false} SameWorkReturned(w: World, r: Run, r': Run, k: nat)
    requires k < |r.work| == |r'.work| && r'.work[k] == r.work[k]
    ensures HasReturned(w, r', k) <==> HasReturned(w, r, k)
  {
    hide Drive;
  }

  /** The stepping package's own condition decides; the others keep theirs. */
  lemma {:induction false} EventKeepsRun(w: World, registry: map<Name, Bytes>, r: Run, i: nat, e: Event, r': Run)
    requires RunInv(w, registry, r) && i < |w.plan| && Reached(w, r, i) && Drive(w.TargetAt(i), r.work[i] + [e]).Some?
    requires r'.work == r.work[i := r.work[i] + [e]] && r'.sent == r.sent - {i}
    requires Drive(w.TargetAt(i), r.work[i] + [e]).value.Returned? ==> Exact(w, registry, w.plan[i])
    ensures RunInv(w, registry, r')
  {
    hide Drive, Exact, Reached;
    forall j | 0 <= j < |w.plan|
      ensures PackageInv(w, registry, r', j)
    {
      assert PackageInv(w, registry, r, i) && PackageInv(w, registry, r, j);
      if r'.work[j] != [] { ReachedStays(w, r, i, e, r', j); }
    }
  }

  lemma {:induction false} LookKeepsRun(w: World, registry: map<Name, Bytes>, r: Run, i: nat, tag: Option<Tagged>, dist: Option<Dist>, download: Option<Bytes>, e: Event)
    requires RunInv(w, registry, r) && Working(w, r, i)
    requires Retained(w.d, w.plan[i]) && Truthful(w, registry, w.plan[i], dist)
    requires e == Look(Observe(w.d, w.policy, w.plan[i], tag, dist, download)) && Drive(w.TargetAt(i), r.work[i] + [e]).Some?
    ensures RunInv(w, registry, r.(work := r.work[i := r.work[i] + [e]]))
  {
    hide Observe, Reached, Retained, Exact;
    var t, r' := w.TargetAt(i), r.(work := r.work[i := r.work[i] + [e]]);
    assert PackageInv(w, registry, r, i);
    DriveExtends(t, r.work[i], e);
    var c := Drive(t, r.work[i]).value;
    LookIsNotPublishing(t, c, e);
    assert r.sent == r.sent - {i};
    hide Drive, Advance;
    if Drive(t, r.work[i] + [e]).value.Returned? { SeenIsExact(w, registry, t, tag, dist, download, c); }
    EventKeepsRun(w, registry, r, i, e, r');
  }

  lemma {:induction false} LookIsNotPublishing(t: Target, c: Control, e: Event)
    requires e.Look? && Advance(t, c, e).Some?
    ensures !c.Publishing?
  {
    hide AssertExact;
  }

  lemma {:induction false} CallKeepsRun(w: World, registry: map<Name, Bytes>, r: Run, i: nat, succeeded: bool)
    requires RunInv(w, registry, r) && Working(w, r, i) && ControlOf(w, r, i) == Some(Publishing)
    ensures RunInv(w, registry, r.(sent := r.sent - {i}, work := r.work[i := r.work[i] + [PublishCall(succeeded)]]))
  {
    hide Reached, Exact;
    DriveExtends(w.TargetAt(i), r.work[i], PublishCall(succeeded));
    EventKeepsRun(w, registry, r, i, PublishCall(succeeded), r.(sent := r.sent - {i}, work := r.work[i := r.work[i] + [PublishCall(succeeded)]]));
  }

  lemma {:induction false} SendKeepsRun(w: World, registry: map<Name, Bytes>, r: Run, i: nat)
    requires RunInv(w, registry, r) && Working(w, r, i) && ControlOf(w, r, i) == Some(Publishing)
    ensures RunInv(w, registry, r.(sent := r.sent + {i}))
  {
    hide Drive, Exact;
    var r' := r.(sent := r.sent + {i});
    forall j | 0 <= j < |w.plan|
      ensures PackageInv(w, registry, r', j)
    {
      assert PackageInv(w, registry, r, j);
    }
  }

  /** All earlier stages are exact, so what is published now is supported. */
  lemma {:induction false} ReachedIsSupported(w: World, registry: map<Name, Bytes>, r: Run, i: nat)
    requires Planned(w) && RunInv(w, registry, r) && Reached(w, r, i)
    ensures Supported(w, registry, i)
  {
    hide Exact, HasReturned;
    forall j | 0 <= j < |w.plan| && w.plan[j].name in w.plan[i].dependencies
      ensures Exact(w, registry, w.plan[j])
    {
      var k :| 0 <= k < |w.plan| && w.plan[k].name == w.plan[j].name && w.stage[k] < w.stage[i];
      assert j == k && HasReturned(w, r, k) && PackageInv(w, registry, r, k);
    }
  }

  lemma {:induction false} FreshIsFine(w: World, registry: map<Name, Bytes>)
    ensures RunInv(w, registry, Fresh(w))
  {
  }

  lemma {:induction false} RegistryStepKeepsInv(w: World, s: State, s': State)
    requires Inv(w, s) && Grows(s.registry, s'.registry) && s'.runs == s.runs && s'.requested == s.requested
    ensures forall r | 0 <= r < |s'.runs| :: RunInv(w, s'.registry, s'.runs[r])
    ensures forall i | 0 <= i < |w.plan| && w.plan[i].name in s'.requested :: Supported(w, s'.registry, i)
  {
    hide RunInv;
    forall r | 0 <= r < |s'.runs|
      ensures RunInv(w, s'.registry, s'.runs[r])
    {
      RunInvGrows(w, s.registry, s'.registry, s.runs[r]);
    }
    forall i | 0 <= i < |w.plan| && w.plan[i].name in s'.requested
      ensures Supported(w, s'.registry, i)
    {
      assert Supported(w, s.registry, i);
    }
  }

  /** One run's step, nothing else touched. */
  lemma {:induction false} OneRunKeepsInv(w: World, s: State, i: nat, r: Run)
    requires Inv(w, s) && i < |s.runs| && RunInv(w, s.registry, r)
    ensures Inv(w, Replace(s, i, r))
  {
    hide RunInv, Supported;
  }

  lemma {:induction false} RequestKeepsInv(w: World, s: State, k: nat)
    requires Planned(w) && Inv(w, s) && k < |w.plan| && Supported(w, s.registry, k)
    ensures Inv(w, s.(requested := s.requested + {w.plan[k].name}))
  {
    hide RunInv, Supported;
    var n := w.plan[k].name;
    forall i | 0 <= i < |w.plan| && w.plan[i].name in s.requested + {n}
      ensures Supported(w, s.registry, i)
    {
      if w.plan[i].name == n { assert i == k; }
    }
  }

  lemma {:induction false} SendKeepsInv(w: World, s: State, k: nat, i: nat, s': State)
    requires Planned(w) && Inv(w, s) && Takes(w, s, Send(k, i), s')
    ensures Inv(w, s')
  {
    var sent := s.runs[k].(sent := s.runs[k].sent + {i});
    assert Reached(w, s.runs[k], i);
    hide RunInv, Reached, ControlOf, Supported;
    SendKeepsRun(w, s.registry, s.runs[k], i);
    ReachedIsSupported(w, s.registry, s.runs[k], i);
    OneRunKeepsInv(w, s, k, sent);
    RequestKeepsInv(w, Replace(s, k, sent), i);
  }

  lemma {:induction false} ApplyKeepsInv(w: World, s: State, k: nat, s': State)
    requires Inv(w, s) && Takes(w, s, Apply(k), s')
    ensures Inv(w, s')
  {
    hide RunInv, Supported;
    RegistryStepKeepsInv(w, s, s');
    forall n | n in s'.ours
      ensures exists i | 0 <= i < |w.plan| :: w.plan[i].name == n && n in s'.registry && s'.registry[n] == w.plan[i].tarball
    {
      if n in s.ours {
        var i :| 0 <= i < |w.plan| && w.plan[i].name == n && n in s.registry && s.registry[n] == w.plan[i].tarball;
        assert w.plan[i].name == n && n in s'.registry && s'.registry[n] == w.plan[i].tarball;
      } else {
        assert w.plan[k].name == n && s'.registry[n] == w.plan[k].tarball;
      }
    }
  }

  lemma {:induction false} StepKeepsInv(w: World, s: State, step: Step, s': State)
    requires Planned(w) && Inv(w, s) && Takes(w, s, step, s')
    ensures Inv(w, s')
  {
    hide RunInv, Supported, Planned, Working, ControlOf, Observe, Drive, Fresh;
    match step
    case Begin => FreshIsFine(w, s.registry);
    case LookAt(k, i, tag, dist, download) =>
      WorkingIsPlanned(w, s.runs[k], i);
      assert RunInv(w, s.registry, s.runs[k]);
      LookKeepsRun(w, s.registry, s.runs[k], i, tag, dist, download, Look(Observe(w.d, w.policy, w.plan[i], tag, dist, download)));
      OneRunKeepsInv(w, s, k, s'.runs[k]);
    case Send(k, i) => SendKeepsInv(w, s, k, i, s');
    case EndPublish(k, i, succeeded) =>
      assert RunInv(w, s.registry, s.runs[k]);
      CallKeepsRun(w, s.registry, s.runs[k], i, succeeded);
      OneRunKeepsInv(w, s, k, s'.runs[k]);
    case Apply(k) => ApplyKeepsInv(w, s, k, s');
    case Foreign(n, tarball) => RegistryStepKeepsInv(w, s, s');
    case Crash(k) =>
      CrashKeepsRun(w, s.registry, s.runs[k]);
      OneRunKeepsInv(w, s, k, s'.runs[k]);
  }

  lemma {:induction false} WorkingIsPlanned(w: World, r: Run, i: nat)
    requires Working(w, r, i)
    ensures i < |w.plan|
  {
    hide ControlOf;
  }

  lemma {:induction false} CrashKeepsRun(w: World, registry: map<Name, Bytes>, r: Run)
    requires RunInv(w, registry, r)
    ensures RunInv(w, registry, r.(alive := false))
  {
    hide Drive, Exact;
    var r' := r.(alive := false);
    forall j | 0 <= j < |w.plan|
      ensures PackageInv(w, registry, r', j)
    {
      assert PackageInv(w, registry, r, j);
    }
  }

  lemma {:induction false} InvHolds(w: World, states: seq<State>, k: nat)
    requires Planned(w) && Behaviour(w, states) && k < |states|
    ensures Inv(w, states[k])
  {
    if k > 0 {
      hide Inv, Takes, Planned;
      InvHolds(w, states, k - 1);
      assert Next(w, states[k - 1], states[k - 1 + 1]);
      var step :| Takes(w, states[k - 1], step, states[k]);
      StepKeepsInv(w, states[k - 1], step, states[k]);
    }
  }

  // ---- What every behaviour guarantees ----

  lemma {:induction false} StepGrows(w: World, s: State, step: Step, s': State)
    requires Takes(w, s, step, s')
    ensures Grows(s.registry, s'.registry)
  {
    hide Working, ControlOf, Observe, Drive;
  }

  /** Once a name is in the registry its bytes never change. */
  lemma {:induction false} RegistryOnlyGrows(w: World, states: seq<State>, j: nat, k: nat)
    requires Behaviour(w, states) && j <= k < |states|
    ensures Grows(states[j].registry, states[k].registry)
  {
    if j < k {
      hide Takes;
      RegistryOnlyGrows(w, states, j, k - 1);
      assert Next(w, states[k - 1], states[k - 1 + 1]);
      var step :| Takes(w, states[k - 1], step, states[k]);
      StepGrows(w, states[k - 1], step, states[k]);
    }
  }

  lemma {:induction false} ExactBytes(w: World, registry: map<Name, Bytes>, i: nat)
    requires w.d.Injective() && i < |w.plan| && Exact(w, registry, w.plan[i])
    ensures registry[w.plan[i].name] == w.plan[i].tarball
  {
  }

  /** All dependencies of the i-th package are registered with exactly their retained bytes. */
  ghost predicate DependenciesPublished(w: World, registry: map<Name, Bytes>, i: nat)
    requires i < |w.plan|
  {
    forall n | n in w.plan[i].dependencies ::
      exists j | 0 <= j < |w.plan| :: w.plan[j].name == n && n in registry && registry[n] == w.plan[j].tarball
  }

  lemma {:induction false} SupportedIsPublished(w: World, registry: map<Name, Bytes>, i: nat)
    requires Planned(w) && w.d.Injective() && i < |w.plan| && Supported(w, registry, i)
    ensures DependenciesPublished(w, registry, i)
  {
    forall n | n in w.plan[i].dependencies
      ensures exists j | 0 <= j < |w.plan| :: w.plan[j].name == n && n in registry && registry[n] == w.plan[j].tarball
    {
      var j :| 0 <= j < |w.plan| && w.plan[j].name == n && w.stage[j] < w.stage[i];
      ExactBytes(w, registry, j);
    }
  }

  /**
   * Whatever the runs got published, or may still get published by a request in flight, has all its
   * dependencies published with the expected bytes; and it is itself published with its own.
   */
  lemma {:induction false} PublishedIsClosed(w: World, states: seq<State>, k: nat, i: nat)
    requires Planned(w) && w.d.Injective() && Behaviour(w, states) && k < |states| && i < |w.plan|
    ensures w.plan[i].name in states[k].ours ==>
              w.plan[i].name in states[k].registry && states[k].registry[w.plan[i].name] == w.plan[i].tarball
    ensures w.plan[i].name in states[k].ours + states[k].requested ==> DependenciesPublished(w, states[k].registry, i)
  {
    InvHolds(w, states, k);
    hide RunInv, Behaviour, Supported, DependenciesPublished;
    var s, n := states[k], w.plan[i].name;
    if n in s.requested { SupportedIsPublished(w, s.registry, i); }
  }

  /** No step inserts anything but a requested package. */
  ghost predicate Alone(w: World, states: seq<State>) {
    && Behaviour(w, states) && states[0].registry == map[]
    && forall k | 0 <= k < |states| - 1 :: exists step :: Takes(w, states[k], step, states[k + 1]) && !step.Foreign?
  }

  lemma {:induction false} OwnStepKeepsOurs(w: World, s: State, step: Step, s': State)
    requires Takes(w, s, step, s') && !step.Foreign? && s.registry.Keys == s.ours
    ensures s'.registry.Keys == s'.ours
  {
    hide Working, ControlOf, Observe, Drive;
    match step
    case Apply(k) => assert s'.registry.Keys == s.registry.Keys + {w.plan[k].name};
    case _ =>
  }

  lemma {:induction false} AloneRegistryIsOurs(w: World, states: seq<State>, k: nat)
    requires Alone(w, states) && k < |states|
    ensures states[k].registry.Keys == states[k].ours
  {
    if k > 0 {
      hide Takes;
      AloneRegistryIsOurs(w, states, k - 1);
      assert states[k] == states[k - 1 + 1];
      var step :| Takes(w, states[k - 1], step, states[k]) && !step.Foreign?;
      OwnStepKeepsOurs(w, states[k - 1], step, states[k]);
    }
  }

  /** With no other publisher the whole registry is closed under internal dependencies in every state. */
  lemma {:induction false} RegistryIsClosed(w: World, states: seq<State>, k: nat, i: nat)
    requires Planned(w) && w.d.Injective() && Alone(w, states) && k < |states|
    requires i < |w.plan| && w.plan[i].name in states[k].registry
    ensures states[k].registry[w.plan[i].name] == w.plan[i].tarball && DependenciesPublished(w, states[k].registry, i)
  {
    AloneRegistryIsOurs(w, states, k);
    hide Behaviour, Takes;
    PublishedIsClosed(w, states, k, i);
  }

  /** A package a run has returned is registered with exactly its retained bytes ever after. */
  lemma {:induction false} ReturnIsExact(w: World, states: seq<State>, j: nat, k: nat, r: nat, i: nat)
    requires Planned(w) && w.d.Injective() && Behaviour(w, states) && j <= k < |states| && r < |states[j].runs|
    requires i < |w.plan| && HasReturned(w, states[j].runs[r], i)
    ensures w.plan[i].name in states[k].registry && states[k].registry[w.plan[i].name] == w.plan[i].tarball
  {
    InvHolds(w, states, j);
    var s := states[j];
    assert RunInv(w, s.registry, s.runs[r]);
    assert PackageInv(w, s.registry, s.runs[r], i);
    RegistryOnlyGrows(w, states, j, k);
    ExactBytes(w, states[k].registry, i);
  }

  /** A run looks at a package only when every package of every earlier stage has returned, and they stay returned. */
  lemma {:induction false} StagesInOrder(w: World, states: seq<State>, k: nat, r: nat, i: nat)
    requires Planned(w) && Behaviour(w, states) && k < |states| && r < |states[k].runs| && i < |w.plan|
    ensures |states[k].runs[r].work| == |w.plan|
    ensures states[k].runs[r].work[i] != [] ==> Reached(w, states[k].runs[r], i)
  {
    InvHolds(w, states, k);
    assert RunInv(w, states[k].registry, states[k].runs[r]);
    assert PackageInv(w, states[k].registry, states[k].runs[r], i);
  }

  /** At most one publish call in an event sequence, and only straight after an absent first look. */
  ghost predicate PublishesOnce(events: seq<Event>) {
    forall i | 0 <= i < |events| && events[i].PublishCall? :: i == 1 && events[0] == Look(Ok(None))
  }

  /** In every run: one publish call per package at most, counting one still under way, and only after an absent look. */
  lemma {:induction false} CallsOnceAfterAbsence(w: World, states: seq<State>, k: nat, r: nat, i: nat)
    requires Planned(w) && Behaviour(w, states) && k < |states| && r < |states[k].runs| && i < |w.plan|
    ensures var run := states[k].runs[r];
            && |run.work| == |w.plan| && PublishesOnce(run.work[i])
            && (i in run.sent ==> run.work[i] == [Look(Ok(None))])
  {
    InvHolds(w, states, k);
    var run := states[k].runs[r];
    assert RunInv(w, states[k].registry, run);
    assert PackageInv(w, states[k].registry, run, i);
    PublishOnceAfterAbsence(w.TargetAt(i), run.work[i]);
  }

  // ---- The loop over the plan ----

  /** Packages that carry the plan's records, in order. */
  ghost predicate Carries(w: World, records: seq<PublishPlan.Record>) {
    && |records| == |w.plan| == |w.stage|
    && forall i | 0 <= i < |records| ::
         w.plan[i].name == records[i].name && w.plan[i].dependencies.Keys == records[i].dependencies.Keys
  }

  /** Publishing one by one in plan order satisfies what the runs rely on. */
  lemma {:induction false} PlanIsFollowed(w: World, records: seq<PublishPlan.Record>)
    requires PublishWaves.DependenciesFirst(records) && Carries(w, records)
    requires forall i | 0 <= i < |w.stage| :: w.stage[i] == i
    ensures Planned(w)
  {
    forall i, n | 0 <= i < |w.plan| && n in w.plan[i].dependencies
      ensures exists j | 0 <= j < |w.plan| :: w.plan[j].name == n && w.stage[j] < w.stage[i]
    {
      assert n in PublishPlan.Names(records[..i]);
      var j :| 0 <= j < i && PublishPlan.Names(records[..i])[j] == n;
      assert w.plan[j].name == n && w.stage[j] < w.stage[i];
    }
  }

  /** So does publishing wave by wave, each wave concurrently. */
  lemma {:induction false} WavesAreFollowed(w: World, records: seq<PublishPlan.Record>, wave: map<Name, nat>)
    requires PublishWaves.DependenciesFirst(records) && Carries(w, records) && Layered(PublishPlan.GraphOf(records), wave)
    requires forall i | 0 <= i < |records| :: records[i].name in wave && w.stage[i] == wave[records[i].name]
    ensures Planned(w)
  {
    var g := PublishPlan.GraphOf(records);
    forall i, n | 0 <= i < |w.plan| && n in w.plan[i].dependencies
      ensures exists j | 0 <= j < |w.plan| :: w.plan[j].name == n && w.stage[j] < w.stage[i]
    {
      assert n in PublishPlan.Names(records[..i]);
      var j :| 0 <= j < i && PublishPlan.Names(records[..i])[j] == n;
      PublishPlan.DepsOfAt(records);
      assert Layer(g, wave, records[i].name);
      assert w.plan[j].name == n && w.stage[j] < w.stage[i];
    }
  }

  ghost predicate Reported(w: World, i: nat, events: seq<Event>, observations: map<Name, Observation>)
    requires i < |w.plan|
  {
    w.plan[i].name in observations && Drive(w.TargetAt(i), events) == Some(Returned(observations[w.plan[i].name]))
  }

  ghost predicate Completed(w: World, history: seq<seq<Event>>, observations: map<Name, Observation>) {
    && |history| <= |w.plan|
    && (forall n | n in observations :: exists i | 0 <= i < |history| :: w.plan[i].name == n)
    && forall i | 0 <= i < |history| :: Reported(w, i, history[i], observations)
  }

  lemma {:induction false} CompletedExtends(w: World, history: seq<seq<Event>>, observations: map<Name, Observation>, last: seq<Event>, o: Observation,
                         history': seq<seq<Event>>, observations': map<Name, Observation>)
    requires forall i, j | 0 <= i < j < |w.plan| :: w.plan[i].name != w.plan[j].name
    requires Completed(w, history, observations) && |history| < |w.plan|
    requires Drive(w.TargetAt(|history|), last) == Some(Returned(o))
    requires history' == history + [last] && observations' == observations[w.plan[|history|].name := o]
    ensures Completed(w, history', observations')
  {
    var k := |history|;
    forall n | n in observations'
      ensures exists i | 0 <= i < k + 1 :: w.plan[i].name == n
    {
      if n in observations {
        var i :| 0 <= i < k && w.plan[i].name == n;
      } else {
        assert w.plan[k].name == n;
      }
    }
    forall i | 0 <= i < |history'|
      ensures Reported(w, i, history'[i], observations')
    {
      if i < k { assert Reported(w, i, history[i], observations); }
    }
  }

  /** One run over the whole plan: stops at the first package that throws, and reports every one it returned. */
  method PublishExpectedEvidencePackages(w: World, look: (nat, nat) -> Looked, publish: nat -> bool)
    returns (r: Result<map<Name, Observation>, PublishError>, history: seq<seq<Event>>, last: seq<Event>)
    requires forall i, j | 0 <= i < j < |w.plan| :: w.plan[i].name != w.plan[j].name
    ensures r.Ok? ==> |history| == |w.plan| && Completed(w, history, r.value)
    ensures r.Err? ==> |history| < |w.plan| && (exists observations :: Completed(w, history, observations))
                       && ((r.error == InvalidTarball && last == []) || Drive(w.TargetAt(|history|), last) == Some(Threw(r.error)))
  {
    var observations := map[];
    history := [];
    for k := 0 to |w.plan|
      invariant |history| == k && Completed(w, history, observations)
    {
      var one;
      one, last := PublishRetainedPackage(w.d, w.TargetAt(k), (i: nat) => look(k, i), publish(k));
      if one.Err? {
        return Err(one.error), history, last;
      }
      var observations' := observations[w.plan[k].name := one.value];
      CompletedExtends(w, history, observations, last, one.value, history + [last], observations');
      observations, history := observations', history + [last];
    }
    return Ok(observations), history, [];
  }
}
