/** Canonicalisation is a normal form: exact round trip, bounded length, order and encoding independence, idempotence. */
module TarNormalForm {
  import opened Bytes
  import opened Sorting
  import opened TarFields
  import opened TarReader
  import opened TarRoundTrip
  import opened TarWriter
  import Text
  import opened Utf8
  import opened Wrappers

  // ---- Order ----

  function PathOf(e: Entry): Bytes {
    e.path
  }

  lemma {:induction false} PathOrder()
    ensures TotalPreorder(PathLeq)
  {
    forall x, y
      ensures PathLeq(x, y) || PathLeq(y, x)
    {
      LexTotal(x.path, y.path, ByteRank);
    }
    forall x, y, z | PathLeq(x, y) && PathLeq(y, z)
      ensures PathLeq(x, z)
    {
      LexTransitive(x.path, y.path, z.path, ByteRank);
    }
  }

  lemma {:induction false} SamePath(x: Entry, y: Entry)
    requires PathLeq(x, y) && PathLeq(y, x)
    ensures x.path == y.path
  {
    LexAntisymmetric(x.path, y.path, ByteRank);
  }

  lemma {:induction false} OrderedIsUnique(a: seq<Entry>, b: seq<Entry>)
    requires DistinctBy(a, PathOf) && multiset(a) == multiset(b)
    ensures Ordered(a) == Ordered(b)
  {
    PathOrder();
    hide PathLeq, Sort;
    SortSorts(a, PathLeq);
    SortSorts(b, PathLeq);
    SortPermutes(a, PathLeq);
    SortPermutes(b, PathLeq);
    SortDistinct(a, PathLeq, PathOf);
    var s := Ordered(a);
    forall x, y | x in s && y in s && PathLeq(x, y) && PathLeq(y, x)
      ensures x == y
    {
      SamePath(x, y);
      var i :| 0 <= i < |s| && s[i] == x;
      var j :| 0 <= j < |s| && s[j] == y;
      assert PathOf(s[i]) == PathOf(s[j]);
    }
    SortedUnique(s, Ordered(b), PathLeq);
  }

  /** Two archives with the same set of entries canonicalise to the same bytes, whatever their member order. */
  lemma {:induction false} CanonicalTarIsNormal(a: seq<Entry>, b: seq<Entry>)
    requires DistinctPaths(a) && DistinctPaths(b)
    requires forall e :: e in a <==> e in b
    ensures CanonicalTar(a) == CanonicalTar(b)
  {
    assert DistinctBy(a, PathOf) && DistinctBy(b, PathOf);
    SameMembersPermute(a, b, PathOf);
    OrderedIsUnique(a, b);
  }

  lemma {:induction false} OrderedIsValid(es: seq<Entry>, limits: Limits)
    requires ValidArchive(es, limits)
    ensures ValidArchive(Ordered(es), limits)
  {
    var s := Ordered(es);
    SortPermutes(es, PathLeq);
    assert DistinctBy(es, PathOf);
    SortDistinct(es, PathLeq, PathOf);
    assert forall i, j | 0 <= i < j < |s| :: PathOf(s[i]) != PathOf(s[j]);
    TotalPermuted(s, es, FileWeight);
    TotalPermuted(s, es, DataWeight);
    forall i | 0 <= i < |s|
      ensures ValidEntry(s[i], limits)
    {
      assert s[i] in multiset(s) && s[i] in multiset(es);
      var j :| 0 <= j < |es| && es[j] == s[i];
    }
  }

  // ---- When the writer accepts ----

  predicate Writable(e: Entry) {
    FitsUstar(e.path) && ContentSize(e) < Pow8(11)
  }

  lemma {:induction false} MemberAccepts(e: Entry)
    ensures Member(e).Ok? <==> Writable(e)
    ensures Member(e).Ok? ==> |Member(e).value| == BlockWeight(e)
  {
    SplitPathSound(e.path);
  }

  function BlockWeight(e: Entry): nat {
    512 + Padded(ContentSize(e))
  }

  lemma {:induction false} MembersAccept(es: seq<Entry>)
    ensures Members(es).Ok? <==> forall i | 0 <= i < |es| :: Writable(es[i])
    ensures Members(es).Ok? ==> |Members(es).value| == Total(es, BlockWeight)
  {
    if es != [] {
      MemberAccepts(es[0]);
      MembersAccept(es[1..]);
      assert (forall i | 0 <= i < |es| :: Writable(es[i])) <==>
             Writable(es[0]) && forall i | 0 <= i < |es[1..]| :: Writable(es[1..][i]) by {
        assert forall i | 1 <= i < |es| :: es[i] == es[1..][i - 1];
      }
    }
  }

  /** The writer fails exactly on a path that fits neither field nor split, or on eight gibibytes of data. */
  lemma {:induction false} CanonicalTarAccepts(es: seq<Entry>)
    ensures CanonicalTar(es).Ok? <==> forall i | 0 <= i < |es| :: Writable(es[i])
    ensures CanonicalTar(es).Ok? ==> |CanonicalTar(es).value| == Total(es, BlockWeight) + 1024
  {
    var s := Ordered(es);
    MembersAccept(s);
    SortPermutes(es, PathLeq);
    TotalPermuted(s, es, BlockWeight);
    if forall i | 0 <= i < |es| :: Writable(es[i]) {
      forall i | 0 <= i < |s|
        ensures Writable(s[i])
      {
        assert s[i] in multiset(s) && s[i] in multiset(es);
      }
    }
    if forall i | 0 <= i < |s| :: Writable(s[i]) {
      forall i | 0 <= i < |es|
        ensures Writable(es[i])
      {
        assert es[i] in multiset(es) && es[i] in multiset(s);
      }
    }
  }

  // ---- Round trip ----

  ghost predicate AllBomFree(es: seq<Entry>) {
    forall i | 0 <= i < |es| :: BomFree(es[i].path)
  }

  lemma {:induction false} AllValidOf(es: seq<Entry>, limits: Limits)
    requires forall i | 0 <= i < |es| :: ValidEntry(es[i], limits)
    ensures AllValid(es, limits)
  {
    if es != [] { AllValidOf(es[1..], limits); }
  }

  lemma {:induction false} ReadBackOne(e: Entry, limits: Limits)
    requires ValidEntry(e, limits) && Member(e).Ok?
    ensures SplitPath(e.path).Ok? && Valid(SplitPath(e.path).value.name)
    ensures ReadBackPath(e.path) == e.path <==> BomFree(e.path)
    ensures |ReadBackPath(e.path)| == |e.path| - (if BomFree(e.path) then 0 else 3)
  {
    MemberAccepts(e);
    SplitPathSound(e.path);
    SplitPartsValid(e.path);
  }

  lemma {:induction false} ReadBackAt(es: seq<Entry>, limits: Limits, i: nat)
    requires AllValid(es, limits) && Members(es).Ok? && i < |es|
    ensures ValidEntry(es[i], limits) && Member(es[i]).Ok?
    ensures SplitPath(es[i].path).Ok? && Valid(SplitPath(es[i].path).value.name)
    ensures ReadBackPaths(es, limits)[i] == ReadBackPath(es[i].path)
  {
    if i == 0 {
      ReadBackOne(es[0], limits);
    } else {
      ReadBackAt(es[1..], limits, i - 1);
    }
  }

  lemma {:induction false} RenamedAt(es: seq<Entry>, paths: seq<Bytes>, i: nat)
    requires |es| == |paths| && i < |es|
    ensures Renamed(es, paths)[i] == es[i].(path := paths[i])
  {
    if i > 0 { RenamedAt(es[1..], paths[1..], i - 1); }
  }

  lemma {:induction false} EncodeUnderOwnPaths(encs: seq<Encoding>, es: seq<Entry>, paths: seq<Bytes>, limits: Limits)
    requires AllEncodeAs(encs, es, paths, limits)
    requires forall i | 0 <= i < |es| :: paths[i] == es[i].path
    ensures AllEncode(encs, es, limits)
  {
    if es != [] { EncodeUnderOwnPaths(encs[1..], es[1..], paths[1..], limits); }
  }

  /** Reading the canonical members of a valid list, up to the byte-order marks the decoder drops. */
  lemma {:induction false} ReadMembers(es: seq<Entry>, limits: Limits)
    requires ValidArchive(es, limits) && Members(es).Ok?
    ensures AllBomFree(es) ==> ParseTar(Members(es).value + Zeros(1024), limits) == Ok(es)
    ensures AllValid(es, limits)
    ensures ParseTar(Members(es).value + Zeros(1024), limits).Ok? ==>
              ParseTar(Members(es).value + Zeros(1024), limits).value == Renamed(es, ReadBackPaths(es, limits))
  {
    AllValidOf(es, limits);
    MembersAreEncoded(es, limits);
    var encs, paths, stream := CanonicalEncodings(es), ReadBackPaths(es, limits), Members(es).value + Zeros(1024);
    assert stream == Stream(encs, es) + Ending([], 1024) by { assert Ending([], 1024) == Zeros(1024); }
    assert Trailing([], limits);
    if AllBomFree(es) {
      forall i | 0 <= i < |es|
        ensures paths[i] == es[i].path
      {
        ReadBackAt(es, limits, i);
        ReadBackOne(es[i], limits);
      }
      EncodeUnderOwnPaths(encs, es, paths, limits);
      ParseStream(encs, es, [], 1024, limits);
    }
    if ParseTar(stream, limits).Ok? { ParseStreamAs(encs, es, paths, [], 1024, limits); }
  }

  lemma {:induction false} RenamedFixed(es: seq<Entry>, limits: Limits)
    requires AllValid(es, limits) && Members(es).Ok?
    requires Renamed(es, ReadBackPaths(es, limits)) == es
    ensures AllBomFree(es)
  {
    forall i | 0 <= i < |es|
      ensures BomFree(es[i].path)
    {
      RenamedAt(es, ReadBackPaths(es, limits), i);
      ReadBackAt(es, limits, i);
      ReadBackOne(es[i], limits);
    }
  }

  lemma {:induction false} BomFreePermuted(a: seq<Entry>, b: seq<Entry>)
    requires multiset(a) == multiset(b) && AllBomFree(a)
    ensures AllBomFree(b)
  {
    forall i | 0 <= i < |b|
      ensures BomFree(b[i].path)
    {
      assert b[i] in multiset(b) && b[i] in multiset(a);
    }
  }

  /**
   Parsing the canonical archive of valid entries returns exactly those entries in byte order of
   path, if and only if no split name starts with a byte-order mark.
   */
  lemma {:induction false} CanonicalRoundTrip(es: seq<Entry>, limits: Limits)
    requires ValidArchive(es, limits) && CanonicalTar(es).Ok?
    ensures ParseTar(CanonicalTar(es).value, limits) == Ok(Ordered(es)) <==> AllBomFree(es)
  {
    var s := Ordered(es);
    OrderedIsValid(es, limits);
    SortPermutes(es, PathLeq);
    ReadMembers(s, limits);
    if AllBomFree(es) { BomFreePermuted(es, s); }
    if ParseTar(CanonicalTar(es).value, limits) == Ok(s) {
      RenamedFixed(s, limits);
      BomFreePermuted(s, es);
    }
  }

  // ---- What an accepted stream promises ----

  /** The reader's state invariant. */
  ghost predicate Good(st: State, limits: Limits) {
    && st.(pending := None) == StateAfter(st.entries)
    && ValidArchive(st.entries, limits)
    && (st.pending.Some? ==> Valid(st.pending.value))
  }

  lemma {:induction false} PaxValuesValid(rest: Bytes, attributes: map<Bytes, Bytes>)
    requires forall k | k in attributes :: Valid(attributes[k])
    requires ParsePax(rest, attributes).Ok?
    ensures forall k | k in ParsePax(rest, attributes).value :: Valid(ParsePax(rest, attributes).value[k])
    decreases |rest|
  {
    if rest != [] {
      var record := ReadPaxRecord(rest).value;
      PaxValuesValid(rest[record.length..], attributes[record.key := record.value]);
    }
  }

  lemma {:induction false} GnuPathValid(data: Bytes)
    requires ParseGnuLongPath(data).Ok?
    ensures Valid(ParseGnuLongPath(data).value)
  {
    var text := Decode(data[..Text.IndexOf(data, 0)]).value;
    if text != [] && text[|text| - 1] == 0x0A { ValidAroundAscii(text, |text| - 1); }
  }

  lemma {:induction false} FullPathValid(prefix: Bytes, name: Bytes)
    requires Valid(prefix) && Valid(name)
    ensures Valid(FullPath(prefix, name))
  {
    ValidAppend(prefix, [SLASH]);
    ValidAppend(prefix + [SLASH], name);
  }

  lemma {:induction false} ArchiveExtends(es: seq<Entry>, e: Entry, limits: Limits)
    requires ValidArchive(es, limits) && Admissible(StateAfter(es), e, limits)
    ensures ValidArchive(es + [e], limits)
  {
    hide ValidEntry;
    TotalAppend(es, [e], FileWeight);
    TotalAppend(es, [e], DataWeight);
    assert Total([e], FileWeight) == FileWeight(e) && Total([e], DataWeight) == DataWeight(e);
  }

  lemma {:induction false} AdmitIsAdmissible(header: Bytes, path: Bytes, data: Bytes, limits: Limits, st: State) returns (e: Entry)
    requires |header| == 512 && Admit(header, path, data, limits, st).Ok?
    requires Valid(path) && |data| <= limits.maxEntryBytes
    ensures e.data == data && Admissible(st, e, limits) && Admit(header, path, data, limits, st).value == Admitted(st, e)
  {
    e := Entry(path, ParseOctal(header[100..108]).value, KindOf(header[156]).value, data);
  }

  lemma {:induction false} AdmitKeepsGood(header: Bytes, path: Bytes, data: Bytes, limits: Limits, st: State)
    requires |header| == 512 && Good(st, limits) && Valid(path) && |data| <= limits.maxEntryBytes
    requires Admit(header, path, data, limits, st).Ok?
    ensures var next := Admit(header, path, data, limits, st).value;
            Good(next, limits)
            && Total(next.entries, BlockWeight) <= Total(st.entries, BlockWeight) + 512 + Padded(|data|)
  {
    var e := AdmitIsAdmissible(header, path, data, limits, st);
    AdmitIgnoresPending(header, path, data, limits, st, None);
    assert Admissible(StateAfter(st.entries), e, limits);
    ArchiveExtends(st.entries, e, limits);
    AdmittedIsStateAfter(st.entries, e);
    TotalAppend(st.entries, [e], BlockWeight);
  }

  /** One member never breaks the invariant and pays for the blocks its entry needs. */
  lemma {:induction false} InterpretKeepsGood(header: Bytes, raw: Raw, limits: Limits, st: State)
    requires |header| == 512 && Good(st, limits)
    requires Valid(raw.name) && Valid(raw.prefix) && |raw.data| <= limits.maxEntryBytes
    requires Interpret(header, raw, limits, st).Ok?
    ensures var next := Interpret(header, raw, limits, st).value;
            Good(next, limits)
            && Total(next.entries, BlockWeight) <= Total(st.entries, BlockWeight) + 512 + Padded(|raw.data|)
  {
    if header[156] == 0x78 || header[156] == 0x67 {
      PaxValuesValid(raw.data, map[]);
    } else if header[156] == 0x4C {
      GnuPathValid(raw.data);
    } else {
      FullPathValid(raw.prefix, raw.name);
      var path := if st.pending.Some? then st.pending.value else FullPath(raw.prefix, raw.name);
      AdmitKeepsGood(header, path, raw.data, limits, st);
    }
  }

  lemma {:induction false} StepKeepsGood(rest: Bytes, limits: Limits, st: State)
    requires |rest| >= 512 && Good(st, limits) && Step(rest, limits, st).Continue?
    ensures var p := Step(rest, limits, st);
            Good(p.state, limits)
            && Total(p.state.entries, BlockWeight) <= Total(st.entries, BlockWeight) + p.consumed
  {
    InterpretKeepsGood(rest[..512], ReadRaw(rest, limits).value, limits, st);
  }

  /** Every accepted stream yields valid entries whose canonical stream is no longer than the input. */
  lemma {:induction false} ParsedFrom(rest: Bytes, limits: Limits, st: State)
    requires Good(st, limits) && ParseBlocks(rest, limits, st).Ok?
    ensures ValidArchive(ParseBlocks(rest, limits, st).value, limits)
    ensures Total(ParseBlocks(rest, limits, st).value, BlockWeight) + 1024 <= Total(st.entries, BlockWeight) + |rest|
    decreases |rest|
  {
    var p := Step(rest, limits, st);
    if p.Continue? {
      StepKeepsGood(rest, limits, st);
      ParsedFrom(rest[p.consumed..], limits, p.state);
    }
  }

  lemma {:induction false} ParsedIsValid(tar: Bytes, limits: Limits)
    requires ParseTar(tar, limits).Ok?
    ensures ValidArchive(ParseTar(tar, limits).value, limits)
    ensures Total(ParseTar(tar, limits).value, BlockWeight) + 1024 <= |tar|
  {
    ParsedFrom(tar, limits, START);
  }

  // ---- The writer loses nothing ----

  lemma {:induction false} StringFieldInjective(a: Bytes, b: Bytes, width: nat)
    requires |a| <= width && |b| <= width && 0 !in a && 0 !in b
    requires StringField(a, width) == StringField(b, width)
    ensures a == b
  {
    TextEndsAtNul(a, width);
    TextEndsAtNul(b, width);
    var f := StringField(a, width);
    assert f[..|a|] == a && f[..|b|] == b;
  }

  lemma {:induction false} TextEndsAtNul(text: Bytes, width: nat)
    requires |text| <= width && 0 !in text
    ensures Text.IndexOf(StringField(text, width), 0) == |text|
  {
    var f := StringField(text, width);
    assert forall i | 0 <= i < |text| :: f[i] == text[i];
    if |text| < width { assert f[|text|] == 0; }
  }

  lemma {:induction false} OctalFieldInjective(m: nat, n: nat, length: nat)
    requires length >= 2 && m < Pow8(length - 1) && n < Pow8(length - 1)
    requires OctalField(m, length) == OctalField(n, length)
    ensures m == n
  {
    OctalFieldReads(m, length);
    OctalFieldReads(n, length);
  }

  /** The header fields that hold an entry's name, mode, size and kind. */
  ghost predicate Holds(h: Bytes, s: UstarName, mode: nat, size: nat, kind: Kind) {
    && |h| == 512 && |s.name| <= 100 && |s.prefix| <= 155 && size < Pow8(11) && mode < Pow8(7)
    && h[..100] == StringField(s.name, 100) && h[345..500] == StringField(s.prefix, 155)
    && h[100..108] == OctalField(mode, 8) && h[124..136] == OctalField(size, 12) && h[156] == TypeByte(kind)
  }

  lemma {:induction false} LayoutHolds(h: Bytes, s: UstarName, mode: nat, size: nat, kind: Kind)
    requires |s.name| <= 100 && |s.prefix| <= 155 && size < Pow8(11) && mode < 512
    requires h == Layout(s.name, s.prefix, mode, size, TypeByte(kind))
    ensures Holds(h, s, mode, size, kind)
  {
    assert mode % 512 == mode;
    LayoutFields(h, s.name, s.prefix, mode, size, TypeByte(kind));
  }

  lemma {:induction false} HoldsOneEntry(h: Bytes, s: UstarName, t: UstarName, mode: nat, mode': nat, size: nat, size': nat, kind: Kind, kind': Kind)
    requires Holds(h, s, mode, size, kind) && Holds(h, t, mode', size', kind')
    requires 0 !in s.name && 0 !in s.prefix && 0 !in t.name && 0 !in t.prefix
    ensures s == t && mode == mode' && size == size' && kind == kind'
  {
    StringFieldInjective(s.name, t.name, 100);
    StringFieldInjective(s.prefix, t.prefix, 155);
    OctalFieldInjective(mode, mode', 8);
    OctalFieldInjective(size, size', 12);
  }

  lemma {:induction false} HeaderInjective(e: Entry, f: Entry, h: Bytes, limits: Limits)
    requires ValidEntry(e, limits) && ValidEntry(f, limits)
    requires CanonicalHeader(e) == Ok(h) && CanonicalHeader(f) == Ok(h)
    ensures e.path == f.path && e.mode == f.mode && e.kind == f.kind && |e.data| == |f.data|
  {
    CanonicalHeaderLayout(e, h);
    CanonicalHeaderLayout(f, h);
    SplitPartsValid(e.path);
    SplitPartsValid(f.path);
    var s, t := SplitPath(e.path).value, SplitPath(f.path).value;
    LayoutHolds(h, s, e.mode, ContentSize(e), e.kind);
    LayoutHolds(h, t, f.mode, ContentSize(f), f.kind);
    HoldsOneEntry(h, s, t, e.mode, f.mode, ContentSize(e), ContentSize(f), e.kind, f.kind);
    SplitPathSound(e.path);
    SplitPathSound(f.path);
  }

  lemma {:induction false} PrefixesEqual(a: Bytes, b: Bytes, c: Bytes, d: Bytes)
    requires a + b == c + d && |a| == |c|
    ensures a == c && b == d
  {
    assert (a + b)[..|a|] == a && (c + d)[..|c|] == c;
    assert (a + b)[|a|..] == b && (c + d)[|c|..] == d;
  }

  lemma {:induction false} PayloadInjective(h: Bytes, e: Entry, f: Entry, rest: Bytes, rest': Bytes)
    requires e.path == f.path && e.mode == f.mode && e.kind == f.kind && |e.data| == |f.data|
    requires e.kind == Directory ==> e.data == []
    requires WithPayload(h, e) + rest == WithPayload(h, f) + rest'
    ensures e == f && rest == rest'
  {
    PrefixesEqual(WithPayload(h, e), rest, WithPayload(h, f), rest');
    if e.kind == File {
      var z := Zeros(Padded(|e.data|) - |e.data|);
      PrefixesEqual(h + e.data, z, h + f.data, z);
      PrefixesEqual(h, e.data, h, f.data);
    }
  }

  lemma {:induction false} MemberParts(e: Entry, stream: Bytes)
    requires Member(e).Ok?
    ensures CanonicalHeader(e).Ok? && Member(e).value == WithPayload(CanonicalHeader(e).value, e)
    ensures (Member(e).value + stream)[..512] == CanonicalHeader(e).value
  {
    var h := CanonicalHeader(e).value;
    assert Member(e).value[..512] == h;
  }

  /** Different valid lists never have the same canonical body. */
  lemma {:induction false} MembersInjective(a: seq<Entry>, b: seq<Entry>, limits: Limits)
    requires AllValid(a, limits) && AllValid(b, limits)
    requires Members(a).Ok? && Members(a) == Members(b)
    ensures a == b
  {
    hide CanonicalHeader, ValidEntry, Member, WithPayload, Writable;
    if a == [] || b == [] {
      if a != [] { MemberAccepts(a[0]); }
      if b != [] { MemberAccepts(b[0]); }
    } else {
      FirstMemberSame(a[0], b[0], Members(a[1..]).value, Members(b[1..]).value, limits);
      MembersInjective(a[1..], b[1..], limits);
      assert a == [a[0]] + a[1..] && b == [b[0]] + b[1..];
    }
  }

  lemma {:induction false} FirstMemberSame(e: Entry, f: Entry, rest: Bytes, rest': Bytes, limits: Limits)
    requires ValidEntry(e, limits) && ValidEntry(f, limits) && Member(e).Ok? && Member(f).Ok?
    requires Member(e).value + rest == Member(f).value + rest'
    ensures e == f && rest == rest'
  {
    MemberParts(e, rest);
    MemberParts(f, rest');
    hide CanonicalHeader, Member, WithPayload;
    var h := CanonicalHeader(e).value;
    HeaderInjective(e, f, h, limits);
    PayloadInjective(h, e, f, rest, rest');
  }

  function PathLength(e: Entry): nat {
    |e.path|
  }

  /** Every dropped byte-order mark shortens the paths. */
  lemma {:induction false} ReadBackShortens(es: seq<Entry>, limits: Limits)
    requires AllValid(es, limits) && Members(es).Ok?
    ensures Total(Renamed(es, ReadBackPaths(es, limits)), PathLength) <= Total(es, PathLength)
    ensures Total(Renamed(es, ReadBackPaths(es, limits)), PathLength) == Total(es, PathLength) ==> AllBomFree(es)
  {
    if es != [] {
      ReadBackShortens(es[1..], limits);
      ReadBackAt(es, limits, 0);
      ReadBackOne(es[0], limits);
      var paths := ReadBackPaths(es, limits);
      assert paths[1..] == ReadBackPaths(es[1..], limits);
      var r := Renamed(es, paths);
      assert r[1..] == Renamed(es[1..], paths[1..]);
      assert forall i | 1 <= i < |es| :: es[i] == es[1..][i - 1];
    }
  }

  // ---- Canonicalisation of whole tarballs ----

  /** An assumed compressor with its decompressor. */
  datatype Codec = Codec(gzip: Bytes -> Bytes, gunzip: Bytes -> Option<Bytes>) {
    ghost predicate Inverse() {
      forall b :: gunzip(gzip(b)) == Some(b)
    }
  }

  function Canonicalize(tarball: Bytes, limits: Limits, codec: Codec): Result<Bytes, TarError> {
    var entries :- ParseTarball(tarball, limits, codec.gunzip);
    var tar :- CanonicalTar(entries);
    Ok(codec.gzip(tar))
  }

  method CanonicalizePackageTarball(tarball: Bytes, limits: Limits, codec: Codec) returns (r: Result<Bytes, TarError>)
    ensures r == Canonicalize(tarball, limits, codec)
  {
    var entries := ParseTarEntries(tarball, limits, codec.gunzip);
    if entries.Err? {
      return Err(entries.error);
    }
    r := CreateCanonicalTarball(entries.value, codec.gzip);
  }

  /** The canonical stream of an accepted tarball is never longer than the stream it came from. */
  lemma {:induction false} CanonicalNeverLonger(tarball: Bytes, limits: Limits, codec: Codec)
    requires Canonicalize(tarball, limits, codec).Ok?
    ensures codec.gunzip(tarball).Some?
    ensures var entries := ParseTarball(tarball, limits, codec.gunzip).value;
            ValidArchive(entries, limits)
            && |CanonicalTar(entries).value| <= |codec.gunzip(tarball).value| <= limits.maxUnpackedBytes
  {
    var tar := codec.gunzip(tarball).value;
    ParsedIsValid(tar, limits);
    CanonicalTarAccepts(ParseTar(tar, limits).value);
  }

  lemma {:induction false} ReorderedIsSame(es: seq<Entry>, limits: Limits)
    requires ValidArchive(es, limits)
    ensures CanonicalTar(Ordered(es)) == CanonicalTar(es)
  {
    SortPermutes(es, PathLeq);
    assert DistinctBy(es, PathOf);
    OrderedIsUnique(es, Ordered(es));
  }

  /** A second canonical stream equal to the first one shows that no byte-order mark was dropped. */
  lemma {:induction false} SameTarIsBomFree(es: seq<Entry>, r: seq<Entry>, limits: Limits)
    requires ValidArchive(es, limits) && CanonicalTar(es).Ok?
    requires ParseTar(CanonicalTar(es).value, limits) == Ok(r) && CanonicalTar(r) == CanonicalTar(es)
    ensures AllBomFree(es)
  {
    var s := Ordered(es);
    OrderedIsValid(es, limits);
    ReadMembers(s, limits);
    ParsedIsValid(CanonicalTar(es).value, limits);
    OrderedIsValid(r, limits);
    AllValidOf(Ordered(r), limits);
    PrefixesEqual(Members(Ordered(r)).value, Zeros(1024), Members(s).value, Zeros(1024));
    MembersInjective(Ordered(r), s, limits);
    SortPermutes(r, PathLeq);
    SortPermutes(es, PathLeq);
    TotalPermuted(r, s, PathLength);
    ReadBackShortens(s, limits);
    BomFreePermuted(s, es);
  }

  /**
   Canonicalising twice changes nothing, if and only if the first result still fits the
   compressed-size limit and no split name starts with a byte-order mark.
   */
  lemma {:induction false} CanonicalizeIsIdempotentIff(tarball: Bytes, limits: Limits, codec: Codec)
    requires codec.Inverse() && Canonicalize(tarball, limits, codec).Ok?
    ensures var once := Canonicalize(tarball, limits, codec);
            Canonicalize(once.value, limits, codec) == once <==>
            |once.value| <= limits.maxCompressedBytes
            && AllBomFree(ParseTarball(tarball, limits, codec.gunzip).value)
  {
    var es := ParseTarball(tarball, limits, codec.gunzip).value;
    var tar := CanonicalTar(es).value;
    var once := codec.gzip(tar);
    CanonicalNeverLonger(tarball, limits, codec);
    assert codec.gunzip(once) == Some(tar);
    if |once| <= limits.maxCompressedBytes {
      assert ParseTarball(once, limits, codec.gunzip) == ParseTar(tar, limits);
      CanonicalRoundTrip(es, limits);
      if AllBomFree(es) {
        ReorderedIsSame(es, limits);
      } else if Canonicalize(once, limits, codec) == Ok(once) {
        var r := ParseTar(tar, limits).value;
        assert codec.gunzip(codec.gzip(CanonicalTar(r).value)) == Some(CanonicalTar(r).value);
        SameTarIsBomFree(es, r, limits);
      }
    }
  }

  // ---- A path whose byte-order mark is lost ----

  lemma {:induction false} AsciiFillValid(n: nat, b: Byte)
    requires b < 0x80
    ensures Valid(Fill(n, b))
  {
    if n > 0 {
      assert Fill(n, b)[1..] == Fill(n - 1, b);
      AsciiFillValid(n - 1, b);
    }
  }

  /** package/aaa…a/<BOM>x with one hundred a's: too long for one field, and split right before the mark. */
  function MarkedPath(): Bytes {
    MarkedPrefix() + [SLASH] + MarkedName()
  }

  function MarkedPrefix(): Bytes {
    PACKAGE + [SLASH] + Fill(100, 0x61)
  }

  function MarkedName(): Bytes {
    BOM + [0x78]
  }

  lemma {:induction false} ThreeSegments(path: Bytes, a: Bytes, b: Bytes, c: Bytes)
    requires path == a + [SLASH] + b + [SLASH] + c && SLASH !in a && SLASH !in b && SLASH !in c
    ensures Text.Split(path, SLASH) == [a, b, c]
  {
    var tail := b + [SLASH] + c;
    assert path == a + [SLASH] + tail;
    Text.SplitAppend(a, tail, SLASH);
    Text.SplitAppend(b, c, SLASH);
    Text.SplitAppend(c, [], SLASH);
  }

  lemma {:induction false} MarkedBytes()
    ensures var path := MarkedPath();
            |path| == 113 && path[112] == 0x78 && path[..8] == PACKAGE + [SLASH] && 0x5C !in path && 0 !in path
  {
  }

  lemma {:induction false} MarkedSegments(middle: Bytes)
    requires middle == Fill(100, 0x61)
    ensures !UnsafeSegment(PACKAGE) && !UnsafeSegment(middle) && !UnsafeSegment(MarkedName())
  {
    assert middle[0] == 0x61;
  }

  lemma {:induction false} MarkedPathSafe()
    ensures SafePath(MarkedPath())
  {
    var path, middle := MarkedPath(), Fill(100, 0x61);
    MarkedBytes();
    ThreeSegments(path, PACKAGE, middle, MarkedName());
    MarkedSegments(middle);
    hide Text.Split, Fill, UnsafeSegment, MarkedPath;
    assert !UnsafeSegment(PACKAGE) && !UnsafeSegment(middle) && !UnsafeSegment(MarkedName());
    assert WithoutTrailingSlash(path) == path;
  }

  lemma {:induction false} MarkedPathValid()
    ensures Valid(MarkedPath())
  {
    AsciiFillValid(100, 0x61);
    AsciiValid(PACKAGE + [SLASH]);
    AsciiValid([SLASH]);
    AsciiValid([0x78]);
    ValidAppend(PACKAGE + [SLASH], Fill(100, 0x61));
    ValidAppend(MarkedPrefix(), [SLASH]);
    assert Valid(MarkedName()) by { assert HeadLength(MarkedName()) == 3 && MarkedName()[3..] == [0x78]; }
    ValidAppend(MarkedPrefix() + [SLASH], MarkedName());
  }

  lemma {:induction false} SplitAtLastSlash(path: Bytes, prefix: Bytes, name: Bytes, index: nat)
    requires path == prefix + [SLASH] + name && SLASH !in name
    requires 0 < |prefix| <= 155 && |name| <= 100 && |prefix| <= index < |path|
    ensures SplitFrom(path, index) == Ok(UstarName(name, prefix))
  {
    if index == |prefix| {
      assert path[index + 1..] == name && path[..index] == prefix;
    } else {
      assert path[index] == name[index - |prefix| - 1];
      SplitAtLastSlash(path, prefix, name, index - 1);
    }
  }

  lemma {:induction false} MarkedPathFacts()
    ensures SafePath(MarkedPath()) && Valid(MarkedPath()) && FitsUstar(MarkedPath())
    ensures !BomFree(MarkedPath())
  {
    MarkedPathSafe();
    MarkedPathValid();
    var path := MarkedPath();
    SplitAtLastSlash(path, MarkedPrefix(), MarkedName(), |path| - 1);
    SplitPathSound(path);
  }

  lemma {:induction false} AsciiValid(s: Bytes)
    requires forall i | 0 <= i < |s| :: s[i] < 0x80
    ensures Valid(s)
  {
    if s != [] { AsciiValid(s[1..]); }
  }

  /** The round trip really fails there, so the condition is not vacuous. */
  lemma {:induction false} RoundTripFailsOnMarkedPath(limits: Limits)
    requires LegalLimits(limits)
    ensures var es := [Entry(MarkedPath(), 0x1A4, File, [])];
            ValidArchive(es, limits) && CanonicalTar(es).Ok?
            && ParseTar(CanonicalTar(es).value, limits) != Ok(Ordered(es))
  {
    var e := Entry(MarkedPath(), 0x1A4, File, []);
    MarkedPathFacts();
    assert !BomFree([e][0].path);
    MarkedArchive(e, limits);
    CanonicalRoundTrip([e], limits);
  }

  lemma {:induction false} MarkedArchive(e: Entry, limits: Limits)
    requires LegalLimits(limits) && SafePath(e.path) && Valid(e.path) && FitsUstar(e.path)
    requires e.mode == 0x1A4 && e.kind == File && e.data == []
    ensures ValidArchive([e], limits) && CanonicalTar([e]).Ok?
  {
    hide SafePath, Valid, FitsUstar, CanonicalTar, Pow8;
    assert Total([e], FileWeight) == 1 && Total([e], DataWeight) == 0 by { assert [e][1..] == []; }
    SmallFileWritable(e);
    CanonicalTarAccepts([e]);
    assert ValidEntry(e, limits);
  }

  lemma {:induction false} SmallFileWritable(e: Entry)
    requires FitsUstar(e.path) && e.mode == 0x1A4 && e.kind == File && e.data == []
    ensures Writable(e)
  {
    hide FitsUstar;
    Pow8Facts();
  }
}
