/** A writer that meets no failure gets to its verdict, and to the right one. */
module EvidenceProgress {
  import opened Bytes
  import opened EvidenceStore
  import opened Wrappers

  /** A run of steps from one state to another. */
  ghost predicate Leads(from: State, states: seq<State>, to: State) {
    && states != [] && states[0] == from && states[|states| - 1] == to
    && forall i | 0 <= i < |states| - 1 :: Next(states[i], states[i + 1])
  }

  ghost predicate Reaches(from: State, to: State) {
    exists states :: Leads(from, states, to)
  }

  lemma {:induction false} Stay(s: State)
    ensures Reaches(s, s)
  {
    assert Leads(s, [s], s);
  }

  lemma {:induction false} Go(from: State, s: State, w: nat, step: Step, s': State)
    requires Reaches(from, s) && Takes(s, w, step, s')
    ensures Reaches(from, s')
  {
    hide Takes;
    var states :| Leads(from, states, s);
    assert Next(s, s');
    var more := states + [s'];
    assert forall i | 0 <= i < |more| - 1 :: Next(more[i], more[i + 1]) by {
      forall i | 0 <= i < |more| - 1
        ensures Next(more[i], more[i + 1])
      {
        if i < |states| - 1 { assert more[i] == states[i] && more[i + 1] == states[i + 1]; }
      }
    }
    assert Leads(from, more, s');
  }

  /** What one writer's steps leave alone. */
  ghost predicate OthersKept(s: State, s': State, w: nat) {
    |s'.writers| == |s.writers| && forall v | 0 <= v < |s.writers| && v != w :: s'.writers[v] == s.writers[v]
  }

  /** The writer has its complete bytes in a private file and is about to link it. */
  ghost predicate Ready(s: State, s': State, w: nat, ino: Inode)
    requires w < |s.writers|
  {
    var temporary := Temporary(s.writers[w].temporary);
    && OthersKept(s, s', w) && s'.winner == s.winner
    && s'.dir == s.dir[temporary := ino] && s'.files == s.files[ino := s.writers[w].bytes]
    && s'.writers[w] == s.writers[w].(phase := Closed(ino))
  }

  lemma {:induction false} WritesAll(s: State, w: nat, ino: Inode) returns (s': State)
    requires w < |s.writers| && s.writers[w].phase.Start? && Temporary(s.writers[w].temporary) !in s.dir && ino !in s.files
    ensures Reaches(s, s') && Ready(s, s', w, ino)
  {
    var bytes, temporary := s.writers[w].bytes, Temporary(s.writers[w].temporary);
    var s1 := Enter(s.(dir := s.dir[temporary := ino], files := s.files[ino := []]), w, Writing(ino, 0));
    Stay(s);
    hide Reaches;
    assert Takes(s, w, Open(ino), s1);
    Go(s, s, w, Open(ino), s1);
    var s2 := s1;
    if bytes != [] {
      s2 := Enter(s1.(files := s1.files[ino := [] + bytes[0..|bytes|]]), w, Writing(ino, |bytes|));
      assert Takes(s1, w, Write(|bytes|), s2);
      assert [] + bytes[0..|bytes|] == bytes;
      Go(s, s1, w, Write(|bytes|), s2);
    }
    assert s2.files == s.files[ino := bytes];
    s' := Enter(s2, w, Closed(ino));
    assert Takes(s2, w, Close, s');
    Go(s, s2, w, Close, s');
  }

  lemma {:induction false} CleansUp(from: State, s: State, w: nat) returns (s': State)
    requires Reaches(from, s) && w < |s.writers| && s.writers[w].phase.Cleaning?
    ensures Reaches(from, s') && OthersKept(s, s', w) && s'.writers[w].phase == Done(s.writers[w].phase.verdict)
    ensures s'.dir == s.dir - {Temporary(s.writers[w].temporary)} && s'.files == s.files && s'.winner == s.winner
  {
    s' := Enter(s.(dir := s.dir - {Temporary(s.writers[w].temporary)}), w, Done(s.writers[w].phase.verdict));
    assert Takes(s, w, Remove, s');
    Go(from, s, w, Remove, s');
  }

  /** On a free name, a writer without failures claims it with its bytes, returns, and leaves no temporary file. */
  lemma {:induction false} FreeNameIsClaimed(s: State, w: nat, ino: Inode) returns (s': State)
    requires w < |s.writers| && s.writers[w].phase.Start? && Temporary(s.writers[w].temporary) !in s.dir && ino !in s.files
    requires Destination !in s.dir
    ensures Reaches(s, s') && OthersKept(s, s', w)
    ensures s'.writers[w].phase == Done(Returned) && s'.winner == Some(w)
    ensures s'.dir == s.dir[Destination := ino] && s'.files == s.files[ino := s.writers[w].bytes]
  {
    var temporary := Temporary(s.writers[w].temporary);
    var ready := WritesAll(s, w, ino);
    hide Reaches;
    var linked := Enter(ready.(dir := ready.dir[Destination := ino], winner := Some(w)), w, Cleaning(ino, Returned));
    assert Takes(ready, w, LinkClaims, linked);
    Go(s, ready, w, LinkClaims, linked);
    s' := CleansUp(s, linked, w);
    assert s'.dir == s.dir[Destination := ino];
  }

  /** On a taken name, it compares and returns exactly when the bytes agree, changing nothing. */
  lemma {:induction false} TakenNameIsCompared(s: State, w: nat, ino: Inode) returns (s': State)
    requires w < |s.writers| && s.writers[w].phase.Start? && Temporary(s.writers[w].temporary) !in s.dir && ino !in s.files
    requires Contents(s).Some?
    ensures Reaches(s, s') && OthersKept(s, s', w)
    ensures s'.writers[w].phase == Done(if Contents(s) == Some(s.writers[w].bytes) then Returned else Conflict)
    ensures s'.dir == s.dir && s'.winner == s.winner && Contents(s') == Contents(s)
  {
    var source, existing := s.dir[Destination], Contents(s).value;
    var ready := WritesAll(s, w, ino);
    hide Reaches;
    var taken := Enter(ready, w, Taken(ino));
    assert Takes(ready, w, LinkTaken, taken);
    Go(s, ready, w, LinkTaken, taken);
    var reading := Enter(taken, w, Reading(ino, source, []));
    assert Takes(taken, w, OpenExisting, reading);
    Go(s, taken, w, OpenExisting, reading);
    assert reading.files[source] == existing;
    var read := ReadsAll(s, reading, w);
    var compared := Enter(read, w, Cleaning(ino, if existing == s.writers[w].bytes then Returned else Conflict));
    assert Takes(read, w, Compare, compared);
    Go(s, read, w, Compare, compared);
    s' := CleansUp(s, compared, w);
    assert s'.dir == s.dir;
  }

  lemma {:induction false} ReadsAll(from: State, s: State, w: nat) returns (s': State)
    requires Reaches(from, s) && w < |s.writers| && s.writers[w].phase.Reading? && s.writers[w].phase.got == []
    requires s.writers[w].phase.source in s.files
    ensures Reaches(from, s')
    ensures s' == Enter(s, w, s.writers[w].phase.(got := s.files[s.writers[w].phase.source]))
  {
    var phase := s.writers[w].phase;
    var existing := s.files[phase.source];
    if existing == [] {
      s' := s;
      assert s.writers == s.writers[w := s.writers[w].(phase := phase.(got := existing))];
    } else {
      s' := Enter(s, w, phase.(got := [] + existing[0..|existing|]));
      assert Takes(s, w, ReadChunk(|existing|), s');
      Go(from, s, w, ReadChunk(|existing|), s');
      assert [] + existing[0..|existing|] == existing;
    }
  }
}
