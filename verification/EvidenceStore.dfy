/**
 Exclusive creation of an immutable file by any number of writers: private temporary file, hard
 link to claim the name, byte comparison when the name is taken (scripts/release-evidence.ts).
 */
module EvidenceStore {
  import opened Bytes
  import opened Wrappers

  type Inode = nat
  datatype Name = Destination | Temporary(id: nat)

  datatype Verdict = Returned | Conflict | Failed

  /** Where a writer is in writeImmutableBytes; phases that own a temporary file remember its inode. */
  datatype Phase =
    | Start
    | Writing(ino: Inode, written: nat)
    | Closed(ino: Inode)
    | Taken(ino: Inode)
    | Reading(ino: Inode, source: Inode, got: Bytes)
    | Cleaning(ino: Inode, verdict: Verdict)
    | Done(verdict: Verdict)
    | Crashed

  /** Temporary names need not be unique: exclusive creation is what keeps them private. */
  datatype Writer = Writer(bytes: Bytes, temporary: nat, phase: Phase)

  datatype State = State(dir: map<Name, Inode>, files: map<Inode, Bytes>, writers: seq<Writer>, winner: Option<nat>)

  function Contents(s: State): Option<Bytes> {
    if Destination in s.dir && s.dir[Destination] in s.files then Some(s.files[s.dir[Destination]]) else None
  }

  // ---- Steps ----

  datatype Step =
    | Open(ino: Inode) | OpenFails
    | Write(upTo: nat) | WriteFails | Close
    | LinkClaims | LinkTaken | LinkFails
    | OpenExisting | ReadChunk(upTo: nat) | ReadFails | Compare
    | Remove | RemoveFails | Crash

  function Enter(s: State, w: nat, phase: Phase): State
    requires w < |s.writers|
  {
    s.(writers := s.writers[w := s.writers[w].(phase := phase)])
  }

  predicate Owns(p: Phase) {
    p.Writing? || p.Closed? || p.Taken? || p.Reading? || p.Cleaning?
  }

  /** Writer w takes one step; every failure and a crash are possible wherever the source can meet them. */
  ghost predicate Takes(s: State, w: nat, step: Step, s': State)
  {
    w < |s.writers| &&
    var writer := s.writers[w];
    var temporary := Temporary(writer.temporary);
    match step
    case Open(ino) =>
      && writer.phase.Start? && temporary !in s.dir && ino !in s.files
      && s' == Enter(s.(dir := s.dir[temporary := ino], files := s.files[ino := []]), w, Writing(ino, 0))
    case OpenFails => writer.phase.Start? && s' == Enter(s, w, Done(Failed))
    case Write(upTo) =>
      && writer.phase.Writing? && writer.phase.written < upTo <= |writer.bytes|
      && writer.phase.ino in s.files
      && var more := writer.bytes[writer.phase.written..upTo];
         s' == Enter(s.(files := s.files[writer.phase.ino := s.files[writer.phase.ino] + more]),
                     w, Writing(writer.phase.ino, upTo))
    case WriteFails => writer.phase.Writing? && s' == Enter(s, w, Cleaning(writer.phase.ino, Failed))
    case Close =>
      && writer.phase.Writing? && writer.phase.written == |writer.bytes|
      && s' == Enter(s, w, Closed(writer.phase.ino))
    case LinkClaims =>
      && writer.phase.Closed? && Destination !in s.dir && temporary in s.dir
      && s' == Enter(s.(dir := s.dir[Destination := s.dir[temporary]], winner := Some(w)),
                     w, Cleaning(writer.phase.ino, Returned))
    case LinkTaken => writer.phase.Closed? && Destination in s.dir && s' == Enter(s, w, Taken(writer.phase.ino))
    case LinkFails => writer.phase.Closed? && s' == Enter(s, w, Cleaning(writer.phase.ino, Failed))
    case OpenExisting =>
      && writer.phase.Taken? && Destination in s.dir
      && s' == Enter(s, w, Reading(writer.phase.ino, s.dir[Destination], []))
    case ReadChunk(upTo) =>
      && writer.phase.Reading? && writer.phase.source in s.files
      && |writer.phase.got| < upTo <= |s.files[writer.phase.source]|
      && s' == Enter(s, w, writer.phase.(got := writer.phase.got + s.files[writer.phase.source][|writer.phase.got|..upTo]))
    case ReadFails => (writer.phase.Taken? || writer.phase.Reading?) && s' == Enter(s, w, Cleaning(writer.phase.ino, Failed))
    case Compare =>
      && writer.phase.Reading? && writer.phase.source in s.files
      && |writer.phase.got| >= |s.files[writer.phase.source]|
      && s' == Enter(s, w, Cleaning(writer.phase.ino, if writer.phase.got == writer.bytes then Returned else Conflict))
    case Remove =>
      && writer.phase.Cleaning?
      && s' == Enter(s.(dir := s.dir - {temporary}), w, Done(writer.phase.verdict))
    case RemoveFails => writer.phase.Cleaning? && s' == Enter(s, w, Done(Failed))
    case Crash => !writer.phase.Done? && s' == Enter(s, w, Crashed)
  }

  /** Nothing has run yet; the directory may already hold the destination or stale temporary files. */
  ghost predicate Init(s: State) {
    && (forall n | n in s.dir :: s.dir[n] in s.files)
    && (forall w | 0 <= w < |s.writers| :: s.writers[w].phase.Start?)
    && s.winner.None?
  }

  ghost predicate Next(s: State, s': State) {
    exists w: nat, step :: Takes(s, w, step, s')
  }

  // ---- Invariant ----

  ghost predicate WriterInv(s: State, w: nat)
    requires w < |s.writers|
  {
    var writer := s.writers[w];
    var temporary := Temporary(writer.temporary);
    && (Owns(writer.phase) ==> temporary in s.dir && s.dir[temporary] == writer.phase.ino && writer.phase.ino in s.files)
    && match writer.phase
       case Start => true
       case Writing(ino, n) =>
         && n <= |writer.bytes| && s.files[ino] == writer.bytes[..n]
         && (Destination in s.dir ==> s.dir[Destination] != ino)
       case Closed(ino) => s.files[ino] == writer.bytes
       case Taken(_) => Destination in s.dir
       case Reading(_, source, got) =>
         Destination in s.dir && s.dir[Destination] == source && source in s.files && got <= s.files[source]
       case Cleaning(_, verdict) => Settled(s, writer.bytes, verdict)
       case Done(verdict) => Settled(s, writer.bytes, verdict)
       case Crashed => true
  }

  /** What a verdict says about the destination. */
  ghost predicate Settled(s: State, bytes: Bytes, verdict: Verdict) {
    match verdict
    case Returned => Contents(s) == Some(bytes)
    case Conflict => Contents(s).Some? && Contents(s) != Some(bytes)
    case Failed => true
  }

  ghost predicate PrivateInodes(s: State) {
    forall v, w | 0 <= v < w < |s.writers| && Owns(s.writers[v].phase) && Owns(s.writers[w].phase) ::
      s.writers[v].phase.ino != s.writers[w].phase.ino && s.writers[v].temporary != s.writers[w].temporary
  }

  ghost predicate Inv(s: State) {
    && (forall n | n in s.dir :: s.dir[n] in s.files)
    && (forall w | 0 <= w < |s.writers| :: WriterInv(s, w))
    && PrivateInodes(s)
    && (s.winner.Some? ==> s.winner.value < |s.writers| && Contents(s) == Some(s.writers[s.winner.value].bytes))
  }

  /** Same destination binding, same bytes behind it. */
  ghost predicate Kept(s: State, s': State) {
    Destination in s.dir ==>
      Destination in s'.dir && s'.dir[Destination] == s.dir[Destination] && Contents(s') == Contents(s)
  }

  lemma {:induction false} InitInv(s: State)
    requires Init(s)
    ensures Inv(s)
  {
  }

  /** A step that changes only the stepping writer's phase. */
  lemma {:induction false} PhaseStep(s: State, w: nat, phase: Phase, s': State)
    requires Inv(s) && w < |s.writers| && s' == Enter(s, w, phase)
    requires WriterInv(s', w)
    requires Owns(phase) ==> Owns(s.writers[w].phase) && phase.ino == s.writers[w].phase.ino
    ensures Inv(s') && Kept(s, s')
  {
    forall v | 0 <= v < |s'.writers|
      ensures WriterInv(s', v)
    {
      if v != w { assert WriterInv(s, v); }
    }
  }

  lemma {:induction false} OpenStep(s: State, w: nat, ino: Inode, s': State)
    requires Inv(s) && Takes(s, w, Open(ino), s')
    ensures Inv(s') && Kept(s, s')
  {
    forall v | 0 <= v < |s'.writers|
      ensures WriterInv(s', v)
      ensures v != w && Owns(s'.writers[v].phase) ==>
                s'.writers[v].phase.ino != ino && s'.writers[v].temporary != s'.writers[w].temporary
    {
      assert WriterInv(s, v);
    }
  }

  lemma {:induction false} WriteStep(s: State, w: nat, upTo: nat, s': State)
    requires Inv(s) && Takes(s, w, Write(upTo), s')
    ensures Inv(s') && Kept(s, s')
  {
    var writer := s.writers[w];
    assert WriterInv(s, w);
    assert writer.bytes[..writer.phase.written] + writer.bytes[writer.phase.written..upTo] == writer.bytes[..upTo];
    assert Contents(s') == Contents(s);
    forall v | 0 <= v < |s'.writers|
      ensures WriterInv(s', v)
    {
      assert WriterInv(s, v);
    }
  }

  lemma {:induction false} LinkStep(s: State, w: nat, s': State)
    requires Inv(s) && Takes(s, w, LinkClaims, s')
    ensures Inv(s') && Kept(s, s')
  {
    assert WriterInv(s, w);
    forall v | 0 <= v < |s'.writers|
      ensures WriterInv(s', v)
    {
      assert WriterInv(s, v);
    }
  }

  lemma {:induction false} RemoveStep(s: State, w: nat, s': State)
    requires Inv(s) && Takes(s, w, Remove, s')
    ensures Inv(s') && Kept(s, s')
  {
    assert WriterInv(s, w);
    forall v | 0 <= v < |s'.writers|
      ensures WriterInv(s', v)
    {
      assert WriterInv(s, v);
    }
  }

  lemma {:induction false} ReadStep(s: State, w: nat, step: Step, s': State)
    requires Inv(s) && Takes(s, w, step, s')
    requires step.OpenExisting? || step.ReadChunk? || step.Compare?
    ensures Inv(s') && Kept(s, s')
  {
    assert WriterInv(s, w);
    var phase := s.writers[w].phase;
    if step.Compare? { assert phase.got == s.files[phase.source][..|phase.got|] == s.files[phase.source]; }
    PhaseStep(s, w, s'.writers[w].phase, s');
  }

  /** Every step keeps the invariant and never changes an existing destination. */
  lemma {:induction false} StepKeepsInv(s: State, w: nat, step: Step, s': State)
    requires Inv(s) && Takes(s, w, step, s')
    ensures Inv(s') && Kept(s, s')
  {
    assert WriterInv(s, w);
    match step
    case Open(ino) => OpenStep(s, w, ino, s');
    case Write(upTo) => WriteStep(s, w, upTo, s');
    case LinkClaims => LinkStep(s, w, s');
    case Remove => RemoveStep(s, w, s');
    case OpenExisting => ReadStep(s, w, step, s');
    case ReadChunk(_) => ReadStep(s, w, step, s');
    case Compare => ReadStep(s, w, step, s');
    case Close =>
      assert s.writers[w].bytes[..|s.writers[w].bytes|] == s.writers[w].bytes;
      PhaseStep(s, w, s'.writers[w].phase, s');
    case _ => PhaseStep(s, w, s'.writers[w].phase, s');
  }

  // ---- Runs ----

  ghost predicate Run(states: seq<State>) {
    && states != [] && Init(states[0])
    && forall i | 0 <= i < |states| - 1 :: Next(states[i], states[i + 1])
  }

  lemma {:induction false} NextKeepsInv(s: State, s': State)
    requires Inv(s) && Next(s, s')
    ensures Inv(s') && Kept(s, s')
  {
    hide Takes, Inv, Kept;
    var w: nat, step :| Takes(s, w, step, s');
    StepKeepsInv(s, w, step, s');
  }

  lemma {:induction false} RunInv(states: seq<State>, i: nat)
    requires Run(states) && i < |states|
    ensures Inv(states[i])
  {
    hide Init, Next, Inv, Kept;
    if i == 0 {
      InitInv(states[0]);
    } else {
      RunInv(states, i - 1);
      assert Next(states[i - 1], states[i - 1 + 1]);
      NextKeepsInv(states[i - 1], states[i]);
    }
  }

  /** Once the destination exists, its inode and its bytes never change, in any interleaving. */
  lemma {:induction false} DestinationNeverChanges(states: seq<State>, i: nat, j: nat)
    requires Run(states) && i <= j < |states| && Destination in states[i].dir
    ensures Destination in states[j].dir && states[j].dir[Destination] == states[i].dir[Destination]
    ensures Contents(states[j]) == Contents(states[i])
    decreases j - i
  {
    if i < j {
      RunInv(states, i);
      NextKeepsInv(states[i], states[i + 1]);
      DestinationNeverChanges(states, i + 1, j);
    }
  }

  /** A writer's inputs never change. */
  lemma {:induction false} StepKeepsWriters(s: State, w: nat, step: Step, s': State)
    requires Takes(s, w, step, s')
    ensures |s'.writers| == |s.writers| && forall i | 0 <= i < |s.writers| :: s'.writers[i].bytes == s.writers[i].bytes
    ensures step.LinkClaims? ==> s'.winner.Some? && Destination !in s.dir
    ensures !step.LinkClaims? ==> s'.winner == s.winner && (Destination in s'.dir <==> Destination in s.dir)
  {
  }

  lemma {:induction false} WritersKeepBytes(states: seq<State>, j: nat)
    requires Run(states) && j < |states|
    ensures |states[j].writers| == |states[0].writers|
    ensures forall w | 0 <= w < |states[0].writers| :: states[j].writers[w].bytes == states[0].writers[w].bytes
    ensures states[j].winner.None? ==> (Destination in states[j].dir <==> Destination in states[0].dir)
    ensures Destination in states[0].dir ==> states[j].winner.None?
  {
    if j > 0 {
      WritersKeepBytes(states, j - 1);
      assert Next(states[j - 1], states[j - 1 + 1]);
      var w: nat, step :| Takes(states[j - 1], w, step, states[j]);
      StepKeepsWriters(states[j - 1], w, step, states[j]);
      if Destination in states[0].dir { DestinationNeverChanges(states, 0, j - 1); }
      hide Takes, Init;
    }
  }

  /**
   In every reachable state the destination is absent, or holds what it held before any writer ran,
   or holds the complete bytes of the one writer whose link succeeded.
   */
  lemma {:induction false} DestinationIsWhole(states: seq<State>, j: nat)
    requires Run(states) && j < |states|
    ensures states[j].winner.None? && Destination !in states[0].dir ==> Contents(states[j]) == None
    ensures Destination in states[0].dir ==> states[j].winner.None? && Contents(states[j]) == Contents(states[0])
    ensures states[j].winner.Some? ==>
              && states[j].winner.value < |states[0].writers|
              && Contents(states[j]) == Some(states[0].writers[states[j].winner.value].bytes)
  {
    RunInv(states, j);
    WritersKeepBytes(states, j);
    if Destination in states[0].dir { DestinationNeverChanges(states, 0, j); }
  }

  /** A writer that finishes returns exactly when the destination holds its own bytes, from then on. */
  lemma {:induction false} VerdictIsTruth(states: seq<State>, i: nat, j: nat, w: nat)
    requires Run(states) && i <= j < |states| && w < |states[0].writers|
    requires |states[i].writers| == |states[0].writers| && states[i].writers[w].phase.Done?
    ensures states[i].writers[w].phase.verdict == Returned ==> Contents(states[j]) == Some(states[0].writers[w].bytes)
    ensures states[i].writers[w].phase.verdict == Conflict ==>
              Contents(states[j]).Some? && Contents(states[j]) != Some(states[0].writers[w].bytes)
  {
    RunInv(states, i);
    WritersKeepBytes(states, i);
    assert WriterInv(states[i], w);
    if !states[i].writers[w].phase.verdict.Failed? { DestinationNeverChanges(states, i, j); }
  }

  /** Any two writers that return normally supplied the same bytes. */
  lemma {:induction false} ReturnsAgree(states: seq<State>, i: nat, j: nat, v: nat, w: nat)
    requires Run(states) && i <= j < |states| && v < |states[0].writers| && w < |states[0].writers|
    requires |states[i].writers| == |states[j].writers| == |states[0].writers|
    requires states[i].writers[v].phase == Done(Returned) && states[j].writers[w].phase == Done(Returned)
    ensures states[0].writers[v].bytes == states[0].writers[w].bytes
  {
    VerdictIsTruth(states, i, j, v);
    VerdictIsTruth(states, j, j, w);
  }
}
