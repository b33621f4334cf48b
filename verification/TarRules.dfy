/** What the tar rules mean: paths as walks, modes as written digits, and every byte of a canonical header. */
module TarRules {
  import opened Bytes
  import Decimal
  import opened Sorting
  import opened TarFields
  import TarNormalForm
  import opened TarReader
  import opened TarRoundTrip
  import opened TarWriter
  import opened Text
  import opened Utf8
  import opened Wrappers

  // ---- Paths ----

  /** One step of a walk: a dot or an empty segment stays, two dots go up. */
  function Move(at: seq<Bytes>, segment: Bytes): seq<Bytes> {
    if segment == [] || segment == [0x2E] then at
    else if segment != [0x2E, 0x2E] then at + [segment]
    else if at == [] then [] else at[..|at| - 1]
  }

  /** Where a walk that starts at `at` ends. */
  function Walk(at: seq<Bytes>, segments: seq<Bytes>): seq<Bytes>
    decreases |segments|
  {
    if segments == [] then at else Walk(Move(at, segments[0]), segments[1..])
  }

  lemma {:induction false} MoveGoesDeeper(at: seq<Bytes>, segment: Bytes)
    ensures !UnsafeSegment(segment) ==> Move(at, segment) == at + [segment]
    ensures UnsafeSegment(segment) ==> |Move(at, segment)| <= |at|
  {
  }

  lemma {:induction false} WalkBound(at: seq<Bytes>, segments: seq<Bytes>)
    ensures |Walk(at, segments)| <= |at| + |segments|
    decreases |segments|
  {
    if segments != [] {
      MoveGoesDeeper(at, segments[0]);
      WalkBound(Move(at, segments[0]), segments[1..]);
    }
  }

  /** A walk goes as deep as it has segments exactly when every segment is a name. */
  lemma {:induction false} PlainWalk(at: seq<Bytes>, segments: seq<Bytes>)
    ensures (forall s | s in segments :: !UnsafeSegment(s)) <==> Walk(at, segments) == at + segments
    decreases |segments|
  {
    hide UnsafeSegment, Move;
    if segments == [] {
      assert at + segments == at;
    } else {
      var rest := segments[1..];
      assert segments == [segments[0]] + rest;
      assert at + segments == at + [segments[0]] + rest;
      MoveGoesDeeper(at, segments[0]);
      if UnsafeSegment(segments[0]) {
        WalkBound(Move(at, segments[0]), rest);
      } else {
        PlainWalk(at + [segments[0]], rest);
      }
    }
  }

  lemma {:induction false} JoinHead(parts: seq<Bytes>)
    requires parts != []
    ensures Join(parts, SLASH) == parts[0] || parts[0] + [SLASH] <= Join(parts, SLASH)
  {
  }

  lemma {:induction false} FirstSegment(stem: Bytes)
    ensures Split(stem, SLASH)[0] == PACKAGE <==> stem == PACKAGE || PACKAGE + [SLASH] <= stem
  {
    var parts := Split(stem, SLASH);
    assert SLASH !in PACKAGE;
    JoinSplit(stem, SLASH);
    JoinHead(parts);
    hide Split, Join;
    if stem == PACKAGE {
      SplitAppend(PACKAGE, [], SLASH);
    } else if PACKAGE + [SLASH] <= stem {
      var rest := stem[|PACKAGE| + 1..];
      assert stem == PACKAGE + [SLASH] + rest;
      SplitAppend(PACKAGE, rest, SLASH);
    }
  }

  /** A stem that walks to exactly the place its segments spell, under the package directory. */
  ghost predicate Inside(stem: Bytes) {
    var segments := Split(stem, SLASH);
    && segments[0] == [0x70, 0x61, 0x63, 0x6B, 0x61, 0x67, 0x65] && Walk([], segments) == segments
    && 0x5C !in stem && 0 !in stem
  }

  /** A path is safe exactly when, up to one final slash, walking it loses no segment and starts in the package. */
  lemma {:induction false} SafePathIff(path: Bytes)
    ensures SafePath(path) <==> exists stem :: (path == stem || path == stem + [SLASH]) && Inside(stem)
  {
    var stem := WithoutTrailingSlash(path);
    assert path == stem || path == stem + [SLASH];
    InsideIff(stem);
    forall s | (path == s || path == s + [SLASH]) && Inside(s)
      ensures s == stem
    {
      InsideEnds(s);
    }
    hide Inside, Split;
  }

  lemma {:induction false} InsideEnds(s: Bytes)
    requires Inside(s)
    ensures s != [] && s[|s| - 1] != SLASH
  {
    InsideIff(s);
    assert UnsafeSegment([]);
    hide UnsafeSegment, Split;
    if s != [] && s[|s| - 1] == SLASH {
      var front := s[..|s| - 1];
      assert s == front + [SLASH];
      TrailingSegment(front);
    }
  }

  lemma {:induction false} InsideIff(stem: Bytes)
    ensures Inside(stem) <==>
            && (stem == PACKAGE || PACKAGE + [SLASH] <= stem) && 0x5C !in stem && 0 !in stem
            && !(exists s | s in Split(stem, SLASH) :: UnsafeSegment(s))
  {
    var segments := Split(stem, SLASH);
    FirstSegment(stem);
    PlainWalk([], segments);
    assert [] + segments == segments;
    hide Split, Walk, UnsafeSegment;
  }

  /** Walking an accepted path never leaves the package directory on the way. */
  lemma {:induction false} NeverLeaves(path: Bytes, k: nat)
    requires SafePath(path) && 0 < k <= |Split(path, SLASH)|
    ensures var at := Walk([], Split(path, SLASH)[..k]);
            at != [] && at[0] == [0x70, 0x61, 0x63, 0x6B, 0x61, 0x67, 0x65]
  {
    SafePathIff(path);
    var stem :| (path == stem || path == stem + [SLASH]) && Inside(stem);
    var segments := Split(stem, SLASH);
    assert [] + segments == segments;
    PlainWalk([], segments);
    TrailingSegment(stem);
    hide Split, Walk, UnsafeSegment;
    if k == |segments| + 1 {
      assert Split(path, SLASH)[..k] == segments + [[]];
      EmptyStays([], segments);
    } else {
      assert Split(path, SLASH)[..k] == segments[..k] && [] + segments[..k] == segments[..k];
      PlainWalk([], segments[..k]);
    }
  }

  lemma {:induction false} TrailingSegment(s: Bytes)
    ensures Split(s + [SLASH], SLASH) == Split(s, SLASH) + [[]]
  {
    if s == [] {
      assert s + [SLASH] == [SLASH] && [SLASH][1..] == [];
    } else {
      TrailingSegment(s[1..]);
      assert (s + [SLASH])[1..] == s[1..] + [SLASH];
    }
  }

  lemma {:induction false} EmptyStays(at: seq<Bytes>, segments: seq<Bytes>)
    ensures Walk(at, segments + [[]]) == Walk(at, segments)
    decreases |segments|
  {
    if segments == [] {
      var one: seq<Bytes> := [[]];
      assert segments + one == one && one[1..] == [];
      assert Walk(at, one) == Walk(Move(at, []), []);
    } else {
      assert (segments + [[]])[1..] == segments[1..] + [[]];
      EmptyStays(Move(at, segments[0]), segments[1..]);
    }
  }

  // ---- Members ----

  /** The mode field spells these digits. */
  predicate SpellsMode(header: Bytes, digits: Bytes, blanks: Bytes) {
    && |header| == 512 && header[100..108] == digits + blanks && digits != [] && OctalDigits(digits)
    && forall i | 0 <= i < |blanks| :: blanks[i] == 0 || blanks[i] == 0x20
  }

  /** A checksummed header with readable names that announces this payload and is no extension header. */
  predicate AnnouncesMember(header: Bytes, data: Bytes, padding: Bytes, limits: Limits) {
    && |header| == 512 && !AllZero(header) && ChecksumHolds(header)
    && ReadString(header[..100]).Ok? && ReadString(header[345..500]).Ok?
    && ParseOctal(header[124..136]) == Ok(|data|) && |data| <= limits.maxEntryBytes
    && |padding| < 512 && (|data| + |padding|) % 512 == 0
    && header[156] != 0x78 && header[156] != 0x67 && header[156] != 0x4C
  }

  /** At most three octal digits, and none of the last digits that let others write. */
  predicate SafeDigits(digits: Bytes)
    requires digits != [] && OctalDigits(digits)
  {
    |ToOctal(OctalValue(digits))| <= 3 && digits[|digits| - 1] in [0x30, 0x31, 0x34, 0x35]
  }

  lemma {:induction false} LegalModeDigits(digits: Bytes)
    requires digits != [] && OctalDigits(digits)
    ensures LegalMode(OctalValue(digits)) <==> SafeDigits(digits)
  {
    ToOctalWidth(OctalValue(digits), 3);
    assert Pow8(3) == 512 by { assert Pow8(1) == 8 && Pow8(2) == 64; }
    WriteBit(OctalValue(digits[..|digits| - 1]), digits[|digits| - 1] - 0x30);
  }

  lemma {:induction false} WriteBit(high: nat, last: nat)
    requires last < 8
    ensures (8 * high + last) / 2 % 2 == 0 <==> last in [0, 1, 4, 5]
  {
    var half := if last < 2 then 0 else if last < 4 then 1 else if last < 6 then 2 else 3;
    Halved(8 * high + last, 4 * high + half, last - 2 * half);
    if half < 2 { Halved(4 * high + half, 2 * high, half); } else { Halved(4 * high + half, 2 * high + 1, half - 2); }
  }

  lemma {:induction false} Halved(n: nat, q: nat, r: nat)
    requires n == 2 * q + r && r < 2
    ensures n / 2 == q && n % 2 == r
  {
  }

  /** The path a member goes by: the pending one, or prefix and name joined by a slash. */
  ghost predicate GoesBy(header: Bytes, st: State, path: Bytes) {
    && |header| == 512 && ReadString(header[..100]).Ok? && ReadString(header[345..500]).Ok?
    && var name, prefix := ReadString(header[..100]).value, ReadString(header[345..500]).value;
       path == if st.pending.Some? then st.pending.value else if prefix == [] then name else prefix + [0x2F] + name
  }

  /** Everything that lets a member in, on what its header spells. */
  ghost predicate LetIn(header: Bytes, path: Bytes, digits: Bytes, data: Bytes, limits: Limits, st: State)
    requires |header| == 512 && digits != [] && OctalDigits(digits)
  {
    && SafePath(path) && SafeDigits(digits)
    && (header[156] == 0 || header[156] == 0x30 || (header[156] == 0x35 && data == []))
    && (forall i | 0 <= i < |st.entries| :: st.entries[i].path != path)
    && (header[156] != 0x35 ==> st.files < limits.maxFileCount && st.fileBytes + |data| <= limits.maxUnpackedBytes)
  }

  ghost function Entered(header: Bytes, path: Bytes, digits: Bytes, data: Bytes, st: State): State
    requires |header| == 512 && digits != [] && OctalDigits(digits)
  {
    var file := header[156] != 0x35;
    State(st.entries + [Entry(path, OctalValue(digits), if file then File else Directory, data)], None,
          st.fileBytes + (if file then |data| else 0), st.files + (if file then 1 else 0))
  }

  lemma {:induction false} AdmitIff(header: Bytes, path: Bytes, digits: Bytes, blanks: Bytes, data: Bytes, limits: Limits, st: State)
    requires SpellsMode(header, digits, blanks)
    ensures Admit(header, path, data, limits, st).Ok? <==> LetIn(header, path, digits, data, limits, st)
    ensures Admit(header, path, data, limits, st).Ok? ==> Admit(header, path, data, limits, st).value == Entered(header, path, digits, data, st)
  {
    ParseOctalDigits(digits, blanks);
    LegalModeDigits(digits);
    hide ParseOctal, SafePath, LegalMode, SafeDigits, OctalValue, OctalDigits;
  }

  /**
   * The reader takes a member in exactly when its path is safe and new, its mode digits are safe, its type is a
   * file or an empty directory and the limits leave room; otherwise the whole archive is refused.
   */
  lemma {:induction false} MemberIsReadIff(header: Bytes, path: Bytes, digits: Bytes, blanks: Bytes, data: Bytes, padding: Bytes, rest: Bytes,
                                           limits: Limits, st: State)
    requires AnnouncesMember(header, data, padding, limits) && SpellsMode(header, digits, blanks) && GoesBy(header, st, path)
    ensures var stream := header + data + padding + rest;
            && (LetIn(header, path, digits, data, limits, st) ==>
                  ParseBlocks(stream, limits, st) == ParseBlocks(rest, limits, Entered(header, path, digits, data, st)))
            && (!LetIn(header, path, digits, data, limits, st) ==> ParseBlocks(stream, limits, st).Err?)
  {
    hide *;
    var stream := header + data + padding + rest;
    var raw := AnnouncedRaw(header, data, padding, rest, limits);
    InterpretPlain(header, raw, path, limits, st);
    AdmitIff(header, path, digits, blanks, data, limits, st);
    StepOver(stream, raw, limits, st);
  }

  lemma {:induction false} AnnouncedRaw(header: Bytes, data: Bytes, padding: Bytes, rest: Bytes, limits: Limits) returns (raw: Raw)
    requires AnnouncesMember(header, data, padding, limits)
    ensures |header| == 512 && header[156] != 0x78 && header[156] != 0x67 && header[156] != 0x4C
    ensures var stream := header + data + padding + rest;
            && stream[..512] == header && !AllZero(header) && ReadRaw(stream, limits) == Ok(raw)
            && raw.length <= |stream| && stream[raw.length..] == rest
    ensures ReadString(header[..100]).Ok? && ReadString(header[345..500]).Ok?
    ensures raw.data == data && raw.name == ReadString(header[..100]).value && raw.prefix == ReadString(header[345..500]).value
  {
    hide AllZero, ChecksumHolds, ReadString, ParseOctal, ReadRaw;
    PaddingIs(|data|, |padding|);
    ReadRawOf(header, data, padding, rest, limits);
    raw := ReadRaw(header + data + padding + rest, limits).value;
  }

  lemma {:induction false} PaddingIs(size: nat, padding: nat)
    requires padding < 512 && (size + padding) % 512 == 0
    ensures size + padding == Padded(size)
  {
  }

  lemma {:induction false} StepOver(stream: Bytes, raw: Raw, limits: Limits, st: State)
    requires |stream| >= 512 && !AllZero(stream[..512]) && ReadRaw(stream, limits) == Ok(raw)
    ensures raw.length <= |stream|
    ensures var next := Interpret(stream[..512], raw, limits, st);
            && (next.Ok? ==> ParseBlocks(stream, limits, st) == ParseBlocks(stream[raw.length..], limits, next.value))
            && (next.Err? ==> ParseBlocks(stream, limits, st).Err?)
  {
    hide ReadRaw, Interpret, AllZero;
  }

  lemma {:induction false} InterpretPlain(header: Bytes, raw: Raw, path: Bytes, limits: Limits, st: State)
    requires |header| == 512 && header[156] != 0x78 && header[156] != 0x67 && header[156] != 0x4C && GoesBy(header, st, path)
    requires raw.name == ReadString(header[..100]).value && raw.prefix == ReadString(header[345..500]).value
    ensures Interpret(header, raw, limits, st) == Admit(header, path, raw.data, limits, st)
  {
    hide ReadString, Admit;
  }

  /** Limits are refused exactly when one is zero or beyond the safe integers, or an entry may outgrow the whole. */
  lemma {:induction false} LimitsAreChecked(tarball: Bytes, l: Limits, gunzip: Bytes -> Option<Bytes>)
    ensures ParseTarball(tarball, l, gunzip) == Err(BadLimits) <==>
            || (exists n :: n in [l.maxCompressedBytes, l.maxUnpackedBytes, l.maxEntryBytes, l.maxFileCount] && (n == 0 || n > 9007199254740991))
            || l.maxEntryBytes > l.maxUnpackedBytes
  {
    if LegalLimits(l) && gunzip(tarball).Some? { NeverBadLimits(gunzip(tarball).value, l, START); }
    hide ParseTar;
    var all := [l.maxCompressedBytes, l.maxUnpackedBytes, l.maxEntryBytes, l.maxFileCount];
    assert all[0] in all && all[1] in all && all[2] in all && all[3] in all;
  }

  lemma {:induction false} NeverBadLimits(rest: Bytes, l: Limits, st: State)
    ensures ParseBlocks(rest, l, st) != Err(BadLimits)
    decreases |rest|
  {
    if |rest| >= 512 {
      StepNeverBadLimits(rest, l, st);
      hide Step;
      var step := Step(rest, l, st);
      if step.Continue? { NeverBadLimits(rest[step.consumed..], l, step.state); }
    }
  }

  lemma {:induction false} PaxNeverBadLimits(rest: Bytes, attributes: map<Bytes, Bytes>)
    ensures ParsePax(rest, attributes) != Err(BadLimits)
    decreases |rest|
  {
    if rest != [] {
      var record := ReadPaxRecord(rest);
      if record.Ok? { PaxNeverBadLimits(rest[record.value.length..], attributes[record.value.key := record.value.value]); }
    }
  }

  lemma {:induction false} StepNeverBadLimits(rest: Bytes, l: Limits, st: State)
    requires |rest| >= 512
    ensures Step(rest, l, st) != Stop(Err(BadLimits))
  {
    hide ReadRaw, Interpret, AllZero;
    RawNeverBadLimits(rest, l);
    if ReadRaw(rest, l).Ok? { InterpretNeverBadLimits(rest[..512], ReadRaw(rest, l).value, l, st); }
  }

  lemma {:induction false} RawNeverBadLimits(rest: Bytes, l: Limits)
    requires |rest| >= 512
    ensures ReadRaw(rest, l) != Err(BadLimits)
  {
    hide Checksum, Decode, OctalDigits, OctalValue, TrimSpace;
  }

  lemma {:induction false} InterpretNeverBadLimits(header: Bytes, raw: Raw, l: Limits, st: State)
    requires |header| == 512
    ensures Interpret(header, raw, l, st) != Err(BadLimits)
  {
    hide ParsePax, Admit, Decode;
    PaxNeverBadLimits(raw.data, map[]);
    AdmitNeverBadLimits(header, if st.pending.Some? then st.pending.value else FullPath(raw.prefix, raw.name), raw.data, l, st);
  }

  lemma {:induction false} AdmitNeverBadLimits(header: Bytes, path: Bytes, data: Bytes, l: Limits, st: State)
    requires |header| == 512
    ensures Admit(header, path, data, l, st) != Err(BadLimits)
  {
    hide SafePath, LegalMode, HasPath, OctalDigits, OctalValue, TrimSpace;
  }

  // ---- Octal fields and PAX records ----

  predicate AllSpace(s: Bytes) {
    forall i | 0 <= i < |s| :: AsciiSpace(s[i])
  }

  /** Tabs, line ends and spaces. */
  predicate Spaces(s: Bytes) {
    forall i | 0 <= i < |s| :: s[i] in [0x09, 0x0A, 0x0B, 0x0C, 0x0D, 0x20]
  }

  lemma {:induction false} SpacesIff(s: Bytes)
    ensures AllSpace(s) <==> Spaces(s)
  {
  }

  predicate AllBlank(s: Bytes) {
    forall i | 0 <= i < |s| :: s[i] == 0 || s[i] == 0x20
  }

  lemma {:induction false} TrimSpaceShape(s: Bytes) returns (lead: Bytes, tail: Bytes)
    ensures s == lead + TrimSpace(s) + tail && AllSpace(lead) && AllSpace(tail)
    decreases |s|
  {
    if s == [] {
      lead, tail := [], [];
    } else if AsciiSpace(s[0]) {
      lead, tail := TrimSpaceShape(s[1..]);
      assert s == [s[0]] + s[1..];
      lead := [s[0]] + lead;
    } else if AsciiSpace(s[|s| - 1]) {
      lead, tail := TrimSpaceShape(s[..|s| - 1]);
      assert s == s[..|s| - 1] + [s[|s| - 1]];
      tail := tail + [s[|s| - 1]];
    } else {
      lead, tail := [], [];
    }
  }

  lemma {:induction false} TrimSpaceOf(lead: Bytes, digits: Bytes, tail: Bytes)
    requires AllSpace(lead) && AllSpace(tail) && OctalDigits(digits)
    ensures TrimSpace(lead + digits + tail) == digits
    decreases |lead| + |tail|
  {
    var s := lead + digits + tail;
    if lead != [] {
      assert s[1..] == lead[1..] + digits + tail && s[0] == lead[0];
      TrimSpaceOf(lead[1..], digits, tail);
    } else if tail != [] {
      if digits == [] {
        assert s == tail && s[1..] == tail[1..] && tail[1..] == lead + digits + tail[1..];
        TrimSpaceOf(lead, digits, tail[1..]);
      } else {
        assert s[0] == digits[0] && s[..|s| - 1] == lead + digits + tail[..|tail| - 1] && s[|s| - 1] == tail[|tail| - 1];
        TrimSpaceOf(lead, digits, tail[..|tail| - 1]);
      }
    } else {
      assert s == digits;
    }
  }

  lemma {:induction false} BlankTailShape(s: Bytes)
    ensures AllBlank(s[|s| - BlankTail(s)..])
    ensures var kept := s[..|s| - BlankTail(s)]; kept == [] || (kept[|kept| - 1] != 0 && kept[|kept| - 1] != 0x20)
  {
    if s != [] && (s[|s| - 1] == 0 || s[|s| - 1] == 0x20) {
      var front := s[..|s| - 1];
      BlankTailShape(front);
      assert s[|s| - BlankTail(s)..] == front[|front| - BlankTail(front)..] + [s[|s| - 1]];
      assert s[..|s| - BlankTail(s)] == front[..|front| - BlankTail(front)];
    } else {
      assert s[..|s|] == s;
    }
  }

  /** White space, octal digits, white space, then NULs and spaces. */
  ghost predicate OctalShape(text: Bytes, lead: Bytes, digits: Bytes, tail: Bytes, blanks: Bytes) {
    text == lead + digits + tail + blanks && Spaces(lead) && OctalDigits(digits) && Spaces(tail) && AllBlank(blanks)
  }

  lemma {:induction false} KeepsNonBlank(s: Bytes, i: nat)
    requires i < |s| && s[i] != 0 && s[i] != 0x20
    ensures i < |s| - BlankTail(s)
  {
    if i < |s| - 1 { KeepsNonBlank(s[..|s| - 1], i); }
  }

  lemma {:induction false} DropsBlanks(front: Bytes, blanks: Bytes)
    requires AllBlank(blanks)
    ensures |front + blanks| - BlankTail(front + blanks) <= |front|
  {
    var s := front + blanks;
    if blanks != [] {
      assert s[..|s| - 1] == front + blanks[..|blanks| - 1] && s[|s| - 1] == blanks[|blanks| - 1];
      DropsBlanks(front, blanks[..|blanks| - 1]);
    }
  }

  lemma {:induction false} ShapeIsStripped(text: Bytes, lead: Bytes, digits: Bytes, tail: Bytes, blanks: Bytes)
    requires OctalShape(text, lead, digits, tail, blanks)
    ensures TrimSpace(text[..|text| - BlankTail(text)]) == digits
  {
    SpacesIff(lead);
    SpacesIff(tail);
    hide Spaces;
    var n, front := |text| - BlankTail(text), lead + digits + tail;
    DropsBlanks(front, blanks);
    assert text[..n] == front[..n];
    hide BlankTail, TrimSpace;
    if digits == [] {
      assert forall i | 0 <= i < |front| :: front[i] == if i < |lead| then lead[i] else tail[i - |lead|];
      assert front[..n] == front[..n] + digits + [];
      TrimSpaceOf(front[..n], digits, []);
    } else {
      var m := |lead| + |digits|;
      assert text[m - 1] == digits[|digits| - 1];
      KeepsNonBlank(text, m - 1);
      assert front[..n] == lead + digits + tail[..n - m];
      TrimSpaceOf(lead, digits, tail[..n - m]);
    }
  }

  /** A field reads as a number exactly when, top bits dropped, it is that number's digits among blanks. */
  lemma {:induction false} ParseOctalIff(field: Bytes, n: nat)
    ensures ParseOctal(field) == Ok(n) <==>
            exists lead, digits, tail, blanks :: OctalShape(Ascii(field), lead, digits, tail, blanks) && OctalValue(digits) == n
  {
    var text := Ascii(field);
    var kept := text[..|text| - BlankTail(text)];
    var raw := TrimSpace(kept);
    var lead, tail := TrimSpaceShape(kept);
    BlankTailShape(text);
    SpacesIff(lead);
    SpacesIff(tail);
    hide BlankTail, TrimSpace, AllSpace, Spaces;
    var blanks := text[|text| - BlankTail(text)..];
    assert text == lead + raw + tail + blanks by { assert text == kept + blanks; }
    if ParseOctal(field) == Ok(n) { assert OctalShape(text, lead, raw, tail, blanks) && OctalValue(raw) == n; }
    if lead', digits, tail', blanks' :| OctalShape(text, lead', digits, tail', blanks') && OctalValue(digits) == n {
      ShapeIsStripped(text, lead', digits, tail', blanks');
    }
  }

  /** A key, an equals sign, a value and a newline. */
  ghost predicate BodyShape(body: Bytes, key: Bytes, value: Bytes) {
    body == key + [0x3D] + (value + [0x0A]) && key != [] && 0x3D !in key
  }

  /** A decimal length, a space and the body; the length counts all of it. */
  ghost predicate RecordShape(record: Bytes, digits: Bytes, body: Bytes) {
    && record == digits + [0x20] + body && body != [] && 0x20 !in digits
    && DecimalBytes(Ascii(digits)) && Decimal.Value(DecimalText(Ascii(digits))) == |record|
  }

  lemma {:induction false} PaxBodyIff(body: Bytes, length: nat, r: PaxRecord)
    requires body != []
    ensures ReadPaxBody(body, length) == Ok(r) <==>
            r.length == length && exists key, value :: BodyShape(body, key, value) && Ascii(key) == r.key && Decode(value) == Some(r.value)
  {
    hide ReadPaxBody, BodyShape, Decode, Ascii;
    if ReadPaxBody(body, length) == Ok(r) { var key, value := BodyIsShaped(body, length, r); }
    if r.length == length {
      if key, value :| BodyShape(body, key, value) && Ascii(key) == r.key && Decode(value) == Some(r.value) { ShapedBody(body, length, r, key, value); }
    }
  }

  lemma {:induction false} BodyIsShaped(body: Bytes, length: nat, r: PaxRecord) returns (key: Bytes, value: Bytes)
    requires body != [] && ReadPaxBody(body, length) == Ok(r)
    ensures r.length == length && BodyShape(body, key, value) && Ascii(key) == r.key && Decode(value) == Some(r.value)
  {
    hide Decode, Ascii;
    var equals := IndexOf(body, 0x3D);
    key, value := body[..equals], body[equals + 1..|body| - 1];
    assert body == key + [0x3D] + (value + [0x0A]);
  }

  lemma {:induction false} ShapedBody(body: Bytes, length: nat, r: PaxRecord, key: Bytes, value: Bytes)
    requires body != [] && r.length == length && BodyShape(body, key, value) && Ascii(key) == r.key && Decode(value) == Some(r.value)
    ensures ReadPaxBody(body, length) == Ok(r)
  {
    PaxBodyShape(body, key, value);
    hide Decode, Ascii, IndexOf;
  }

  lemma {:induction false} ShapedRecord(rest: Bytes, digits: Bytes, body: Bytes, n: nat)
    requires n <= |rest| && RecordShape(rest[..n], digits, body)
    ensures ReadPaxRecord(rest) == ReadPaxBody(body, n)
  {
    hide ReadPaxBody, IndexOf, Ascii, DecimalText, Decimal.Value, DecimalBytes;
    RecordParts(rest, digits, body, n);
    IndexOfFirst(rest, digits, 0x20, body + rest[n..]);
  }

  lemma {:induction false} RecordParts(rest: Bytes, digits: Bytes, body: Bytes, n: nat)
    requires n <= |rest| && rest[..n] == digits + [0x20] + body
    ensures n == |digits| + 1 + |body| && rest == digits + [0x20] + (body + rest[n..])
    ensures rest[..|digits|] == digits && rest[|digits| + 1..n] == body
  {
    assert rest == rest[..n] + rest[n..];
    assert rest[..|digits|] == rest[..n][..|digits|] && rest[|digits| + 1..n] == rest[..n][|digits| + 1..];
  }

  lemma {:induction false} RecordIsShaped(rest: Bytes, r: PaxRecord) returns (digits: Bytes, body: Bytes)
    requires ReadPaxRecord(rest) == Ok(r)
    ensures r.length <= |rest| && RecordShape(rest[..r.length], digits, body)
  {
    hide ReadPaxBody, Ascii, DecimalText, Decimal.Value;
    var space := IndexOf(rest, 0x20);
    digits, body := rest[..space], rest[space + 1..r.length];
    assert rest[..r.length] == digits + [0x20] + body;
  }

  /** A record is read exactly when it has that shape and its value is UTF-8; top bits of length and key are dropped. */
  lemma {:induction false} PaxRecordIff(rest: Bytes, r: PaxRecord)
    ensures ReadPaxRecord(rest) == Ok(r) <==>
            && r.length <= |rest|
            && exists digits, body, key, value ::
                 && RecordShape(rest[..r.length], digits, body) && BodyShape(body, key, value)
                 && Ascii(key) == r.key && Decode(value) == Some(r.value)
  {
    hide ReadPaxRecord, ReadPaxBody, RecordShape, Decode, Ascii;
    if ReadPaxRecord(rest) == Ok(r) {
      var digits, body := RecordIsShaped(rest, r);
      ShapedRecord(rest, digits, body, r.length);
      BodyIsNotEmpty(rest[..r.length], digits, body);
      PaxBodyIff(body, r.length, r);
    }
    if r.length <= |rest| {
      if digits, body, key, value :| && RecordShape(rest[..r.length], digits, body) && BodyShape(body, key, value)
                                     && Ascii(key) == r.key && Decode(value) == Some(r.value) {
        ShapedRecord(rest, digits, body, r.length);
        PaxBodyIff(body, r.length, r);
      }
    }
  }

  lemma {:induction false} BodyIsNotEmpty(record: Bytes, digits: Bytes, body: Bytes)
    requires RecordShape(record, digits, body)
    ensures body != []
  {
  }

  // ---- The canonical stream ----

  /** Seven or eleven zero digits and a NUL. */
  predicate ZeroField(field: Bytes) {
    field != [] && field[|field| - 1] == 0 && forall i | 0 <= i < |field| - 1 :: field[i] == 0x30
  }

  lemma {:induction false} OctalZero(length: nat)
    requires length >= 2
    ensures 0 < Pow8(length - 1) && ZeroField(OctalField(0, length))
  {
    assert ToOctal(0) == [0x30];
  }

  /** Every byte of a canonical header that no entry decides: owners, time, link name, magic and padding are fixed. */
  lemma {:induction false} CanonicalHeaderIsFixed(e: Entry, h: Bytes)
    requires CanonicalHeader(e) == Ok(h)
    ensures ZeroField(h[108..116]) && ZeroField(h[116..124]) && ZeroField(h[136..148])
    ensures h[156] == (if e.kind == File then 0x30 else 0x35) && AllZero(h[157..257])
    ensures h[257..265] == [0x75, 0x73, 0x74, 0x61, 0x72, 0, 0x30, 0x30] && AllZero(h[265..345]) && AllZero(h[500..])
    ensures h[154..156] == [0, 0x20]
  {
    SplitPathSound(e.path);
    var split := SplitPath(e.path).value;
    hide SplitPath, Layout;
    LayoutIsFixed(split.name, split.prefix, e.mode, ContentSize(e), TypeByte(e.kind), h);
  }

  lemma {:induction false} LayoutIsFixed(name: Bytes, prefix: Bytes, mode: nat, size: nat, typeByte: Byte, h: Bytes)
    requires |name| <= 100 && |prefix| <= 155 && size < Pow8(11) && h == Layout(name, prefix, mode, size, typeByte)
    ensures ZeroField(h[108..116]) && ZeroField(h[116..124]) && ZeroField(h[136..148])
    ensures h[156] == typeByte && AllZero(h[157..257])
    ensures h[257..265] == [0x75, 0x73, 0x74, 0x61, 0x72, 0, 0x30, 0x30] && AllZero(h[265..345]) && AllZero(h[500..])
    ensures h[154..156] == [0, 0x20]
  {
    Pow8Facts();
    var front, back := Front(name, mode, size), Back(typeByte, prefix);
    var total := Sum(front) + 8 * 0x20 + Sum(back);
    FrontIsFixed(name, mode, size);
    BackIsFixed(typeByte, prefix);
    ChecksumEnds(total);
    hide Front, Back, ChecksumField, Sum, ZeroField, AllZero, Pow8;
    HeaderCut(h, front, ChecksumField(total), back);
  }

  lemma {:induction false} ChecksumEnds(sum: nat)
    requires sum < Pow8(6)
    ensures ChecksumField(sum)[6..8] == [0, 0x20]
  {
    ToOctalWidth(sum, 6);
  }

  lemma {:induction false} HeaderCut(h: Bytes, front: Bytes, sum: Bytes, back: Bytes)
    requires h == front + sum + back && |front| == 148 && |sum| == 8 && |back| == 356
    ensures h[108..116] == front[108..116] && h[116..124] == front[116..124] && h[136..148] == front[136..148]
    ensures h[154..156] == sum[6..8] && h[156] == back[0] && h[157..257] == back[1..101]
    ensures h[257..265] == back[101..109] && h[265..345] == back[109..189] && h[500..] == back[344..]
  {
  }

  lemma {:induction false} FrontIsFixed(name: Bytes, mode: nat, size: nat)
    requires |name| <= 100 && size < Pow8(11)
    ensures var f := Front(name, mode, size); ZeroField(f[108..116]) && ZeroField(f[116..124]) && ZeroField(f[136..148])
  {
    Pow8Facts();
    OctalZero(8);
    OctalZero(12);
    var a, m, s := StringField(name, 100), OctalField(mode % 512, 8), OctalField(size, 12);
    var z, t := OctalField(0, 8), OctalField(0, 12);
    var f := Front(name, mode, size);
    assert f == a + m + z + z + s + t;
    assert f[108..116] == z && f[116..124] == z && f[136..148] == t;
  }

  lemma {:induction false} BackIsFixed(typeByte: Byte, prefix: Bytes)
    requires |prefix| <= 155
    ensures var b := Back(typeByte, prefix);
            && b[0] == typeByte && AllZero(b[1..101]) && b[101..109] == [0x75, 0x73, 0x74, 0x61, 0x72, 0, 0x30, 0x30]
            && AllZero(b[109..189]) && AllZero(b[344..])
  {
    var b, p := Back(typeByte, prefix), StringField(prefix, 155);
    assert b == [typeByte] + Zeros(100) + MAGIC + Zeros(80) + p + Zeros(12);
    assert b[1..101] == Zeros(100) && b[101..109] == MAGIC && b[109..189] == Zeros(80) && b[344..] == Zeros(12);
  }

  /** A member of the canonical stream: its header, a file's data, and zeros up to a whole block. */
  lemma {:induction false} MemberShape(e: Entry, m: Bytes)
    requires Member(e) == Ok(m)
    ensures |m| % 512 == 0 && |m| >= 512 && CanonicalHeader(e) == Ok(m[..512])
    ensures e.kind == Directory ==> |m| == 512
    ensures e.kind == File ==>
              512 + |e.data| <= |m| < 1024 + |e.data| && m[512..512 + |e.data|] == e.data && AllZero(m[512 + |e.data|..])
  {
    hide CanonicalHeader;
    var header := CanonicalHeader(e).value;
    if e.kind == File {
      var padding := Zeros(Padded(|e.data|) - |e.data|);
      ThreeParts(m, header, e.data, padding);
    } else {
      assert m[..512] == header;
    }
  }

  lemma {:induction false} ThreeParts(m: Bytes, a: Bytes, b: Bytes, c: Bytes)
    requires m == a + b + c
    ensures m[..|a|] == a && m[|a|..|a| + |b|] == b && m[|a| + |b|..] == c
  {
  }

  /** The first differing byte decides, and a prefix comes first. */
  ghost predicate BytesBefore(a: Bytes, b: Bytes, n: nat) {
    && n <= |a| && n <= |b| && a[..n] == b[..n]
    && (n == |a| || (n < |b| && a[n] < b[n]))
  }

  ghost predicate InByteOrder(a: Bytes, b: Bytes) {
    exists n: nat :: BytesBefore(a, b, n)
  }

  lemma {:induction false} LexIsBytes(a: Bytes, b: Bytes)
    requires LexLeq(a, b, ByteRank)
    ensures InByteOrder(a, b)
  {
    if a == [] || a[0] < b[0] {
      assert BytesBefore(a, b, 0);
    } else {
      LexIsBytes(a[1..], b[1..]);
      var n: nat :| BytesBefore(a[1..], b[1..], n);
      assert a[..n + 1] == [a[0]] + a[1..][..n] && b[..n + 1] == [b[0]] + b[1..][..n];
      assert BytesBefore(a, b, n + 1);
    }
  }

  lemma {:induction false} SortedInByteOrder(ordered: seq<Entry>)
    requires SortedBy(ordered, PathLeq)
    ensures forall i, j | 0 <= i < j < |ordered| :: InByteOrder(ordered[i].path, ordered[j].path)
  {
    hide InByteOrder;
    forall i, j | 0 <= i < j < |ordered|
      ensures InByteOrder(ordered[i].path, ordered[j].path)
    {
      assert PathLeq(ordered[i], ordered[j]);
      LexIsBytes(ordered[i].path, ordered[j].path);
    }
  }

  /** The canonical stream holds each entry once, in byte order of path, and ends in 1024 zero bytes. */
  lemma {:induction false} CanonicalTarShape(es: seq<Entry>, tar: Bytes) returns (ordered: seq<Entry>, body: Bytes)
    requires CanonicalTar(es) == Ok(tar)
    ensures multiset(ordered) == multiset(es) && Members(ordered) == Ok(body) && tar == body + Zeros(1024)
    ensures forall i, j | 0 <= i < j < |ordered| :: InByteOrder(ordered[i].path, ordered[j].path)
  {
    ordered, body := Ordered(es), Members(Ordered(es)).value;
    SortPermutes(es, PathLeq);
    TarNormalForm.PathOrder();
    SortSorts(es, PathLeq);
    hide Sort, Members, InByteOrder;
    SortedInByteOrder(ordered);
  }
}
