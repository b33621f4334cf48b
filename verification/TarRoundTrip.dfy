/** Reading what the canonical writer wrote, and what the other path encodings write. */
module TarRoundTrip {
  import opened Bytes
  import opened Decimal
  import opened Sorting
  import opened TarFields
  import opened TarReader
  import opened TarWriter
  import opened Text
  import opened Utf8
  import opened Wrappers

  // ---- Fields of the canonical layout ----

  lemma {:induction false} CutSix(f: Bytes, a: Bytes, m: Bytes, u: Bytes, g: Bytes, s: Bytes, t: Bytes)
    requires f == a + m + u + g + s + t
    requires |a| == 100 && |m| == |u| == |g| == 8 && |s| == |t| == 12
    ensures f[..100] == a && f[100..108] == m && f[124..136] == s
  {
  }

  lemma {:induction false} FrontFields(name: Bytes, mode: nat, size: nat)
    requires |name| <= 100 && size < Pow8(11)
    ensures Pow8(7) > 512
    ensures Front(name, mode, size)[..100] == StringField(name, 100)
    ensures Front(name, mode, size)[100..108] == OctalField(mode % 512, 8)
    ensures Front(name, mode, size)[124..136] == OctalField(size, 12)
  {
    Pow8Facts();
    CutSix(Front(name, mode, size), StringField(name, 100), OctalField(mode % 512, 8), OctalField(0, 8),
           OctalField(0, 8), OctalField(size, 12), OctalField(0, 12));
  }

  lemma {:induction false} BackFields(typeByte: Byte, prefix: Bytes)
    requires |prefix| <= 155
    ensures var b := Back(typeByte, prefix);
            b[0] == typeByte && b[101] == 0x75 && b[189..344] == StringField(prefix, 155)
  {
    var p := StringField(prefix, 155);
    var head := [typeByte] + Zeros(100) + MAGIC + Zeros(80);
    assert Back(typeByte, prefix) == head + p + Zeros(12);
  }

  /** Every field a reader looks at, cut out of the canonical header. */
  lemma {:induction false} LayoutFields(h: Bytes, name: Bytes, prefix: Bytes, mode: nat, size: nat, typeByte: Byte)
    requires |name| <= 100 && |prefix| <= 155 && size < Pow8(11)
    requires h == Layout(name, prefix, mode, size, typeByte)
    ensures Pow8(7) > 512
    ensures h[..100] == StringField(name, 100) && h[345..500] == StringField(prefix, 155)
    ensures h[100..108] == OctalField(mode % 512, 8) && h[124..136] == OctalField(size, 12)
    ensures h[156] == typeByte && h[257] == 0x75
    ensures Checksum(h) < Pow8(6) && h[148..156] == ChecksumField(Checksum(h))
  {
    Pow8Facts();
    var f, b := Front(name, mode, size), Back(typeByte, prefix);
    FrontFields(name, mode, size);
    BackFields(typeByte, prefix);
    var c := ChecksumField(Sum(f) + 8 * 0x20 + Sum(b));
    assert h == f + c + b;
    assert h[..148] == f && h[156..] == b && h[148..156] == c;
    assert h[..100] == f[..100] && h[100..108] == f[100..108] && h[124..136] == f[124..136];
    assert h[156] == b[0] && h[257] == b[101];
    assert h[345..500] == b[189..344];
  }

  // ---- What a reader sees in a header ----

  /** A checksummed member header announcing this kind, mode and size, whatever else it holds. */
  predicate HeaderFor(header: Bytes, kind: Kind, mode: nat, size: nat) {
    && |header| == 512 && !AllZero(header) && ChecksumHolds(header)
    && ReadString(header[..100]).Ok? && ReadString(header[345..500]).Ok?
    && ParseOctal(header[124..136]) == Ok(size)
    && ParseOctal(header[100..108]) == Ok(mode)
    && KindOf(header[156]) == Some(kind)
  }

  function HeaderPath(header: Bytes): Bytes
    requires |header| == 512 && ReadString(header[..100]).Ok? && ReadString(header[345..500]).Ok?
  {
    FullPath(ReadString(header[345..500]).value, ReadString(header[..100]).value)
  }

  lemma {:induction false} NumbersRead(h: Bytes, mode: nat, size: nat)
    requires |h| == 512 && size < Pow8(11) && mode < Pow8(7)
    requires h[100..108] == OctalField(mode, 8) && h[124..136] == OctalField(size, 12)
    requires Checksum(h) < Pow8(6) && h[148..156] == ChecksumField(Checksum(h))
    ensures ParseOctal(h[100..108]) == Ok(mode) && ParseOctal(h[124..136]) == Ok(size) && ChecksumHolds(h)
  {
    OctalFieldReads(mode, 8);
    OctalFieldReads(size, 12);
    ChecksumFieldReads(Checksum(h));
  }

  lemma {:induction false} NamesRead(h: Bytes, name: Bytes, prefix: Bytes)
    requires |h| == 512 && |name| <= 100 && |prefix| <= 155
    requires 0 !in name && 0 !in prefix && Valid(name) && Valid(prefix)
    requires h[..100] == StringField(name, 100) && h[345..500] == StringField(prefix, 155)
    ensures ReadString(h[..100]) == Ok(Decode(name).value) && ReadString(h[345..500]) == Ok(Decode(prefix).value)
  {
    StringFieldReads(name, 100);
    StringFieldReads(prefix, 155);
  }

  lemma {:induction false} FieldsRead(h: Bytes, name: Bytes, prefix: Bytes, mode: nat, size: nat, kind: Kind)
    requires |h| == 512 && h[156] == TypeByte(kind) && h[257] == 0x75 && Valid(name) && Valid(prefix)
    requires ParseOctal(h[100..108]) == Ok(mode) && ParseOctal(h[124..136]) == Ok(size) && ChecksumHolds(h)
    requires ReadString(h[..100]) == Ok(Decode(name).value) && ReadString(h[345..500]) == Ok(Decode(prefix).value)
    ensures HeaderFor(h, kind, mode, size)
    ensures HeaderPath(h) == FullPath(Decode(prefix).value, Decode(name).value)
  {
    assert !AllZero(h) by { assert h[257] != 0; }
  }

  lemma {:induction false} LayoutReads(h: Bytes, name: Bytes, prefix: Bytes, mode: nat, size: nat, kind: Kind)
    requires |name| <= 100 && |prefix| <= 155 && size < Pow8(11) && mode < 512
    requires 0 !in name && 0 !in prefix && Valid(name) && Valid(prefix)
    requires h == Layout(name, prefix, mode, size, TypeByte(kind))
    ensures HeaderFor(h, kind, mode, size)
    ensures HeaderPath(h) == FullPath(Decode(prefix).value, Decode(name).value)
  {
    assert mode % 512 == mode;
    LayoutFields(h, name, prefix, mode, size, TypeByte(kind));
    NumbersRead(h, mode, size);
    NamesRead(h, name, prefix);
    FieldsRead(h, name, prefix, mode, size, kind);
  }

  lemma {:induction false} ChecksumFieldReads(sum: nat)
    requires sum < Pow8(6)
    ensures ParseOctal(ChecksumField(sum)) == Ok(sum)
  {
    PaddedValue(sum, 6);
    ToOctalWidth(sum, 6);
    ParseOctalDigits(PadStart(ToOctal(sum), 6), [0, 0x20]);
  }

  // ---- Entries the writer accepts ----

  predicate ValidEntry(e: Entry, limits: Limits) {
    match e
    case Entry(path, mode, kind, data) =>
      && SafePath(path) && Valid(path) && LegalMode(mode)
      && (kind == Directory ==> data == []) && |data| <= limits.maxEntryBytes
  }

  lemma {:induction false} SafePathFacts(path: Bytes)
    requires SafePath(path)
    ensures 0 !in path && |path| >= 7 && path[0] == 0x70
  {
    var n := WithoutTrailingSlash(path);
    assert n != path ==> path == n + [SLASH];
    if n != PACKAGE { assert n[..8] == PACKAGE + [SLASH]; }
    assert n[0] == 0x70;
  }

  /** The path a reader recovers: the prefix intact, the name without a leading byte-order mark. */
  function ReadBackPath(path: Bytes): Bytes
    requires SplitPath(path).Ok? && Valid(SplitPath(path).value.name)
  {
    var s := SplitPath(path).value;
    FullPath(s.prefix, Decode(s.name).value)
  }

  /** A caller can check this before writing: the name part does not start with a byte-order mark. */
  predicate BomFree(path: Bytes) {
    SplitPath(path).Ok? ==> !StartsWithBom(SplitPath(path).value.name)
  }

  lemma {:induction false} SplitPartsValid(path: Bytes)
    requires SafePath(path) && Valid(path) && SplitPath(path).Ok?
    ensures var s := SplitPath(path).value;
            && 0 !in s.name && 0 !in s.prefix && Valid(s.name) && Valid(s.prefix)
            && |s.name| <= 100 && |s.prefix| <= 155 && Decode(s.prefix) == Some(s.prefix)
    ensures ReadBackPath(path) == path <==> BomFree(path)
    ensures |ReadBackPath(path)| == |path| - (if BomFree(path) then 0 else 3)
  {
    SafePathFacts(path);
    SplitPathSound(path);
    var s := SplitPath(path).value;
    if s.prefix != [] {
      ValidAroundAscii(path, |s.prefix|);
      assert s.prefix[0] == path[0];
    }
  }

  lemma {:induction false} CanonicalHeaderLayout(e: Entry, h: Bytes)
    requires CanonicalHeader(e) == Ok(h)
    ensures SplitPath(e.path).Ok? && ContentSize(e) < Pow8(11)
    ensures |SplitPath(e.path).value.name| <= 100 && |SplitPath(e.path).value.prefix| <= 155
    ensures h == Layout(SplitPath(e.path).value.name, SplitPath(e.path).value.prefix, e.mode, ContentSize(e), TypeByte(e.kind))
  {
  }

  /** The canonical header of a valid entry announces exactly that entry. */
  lemma {:induction false} CanonicalHeaderReads(e: Entry, h: Bytes, limits: Limits)
    requires ValidEntry(e, limits) && CanonicalHeader(e) == Ok(h)
    ensures SplitPath(e.path).Ok? && Valid(SplitPath(e.path).value.name)
    ensures HeaderFor(h, e.kind, e.mode, |e.data|)
    ensures HeaderPath(h) == ReadBackPath(e.path)
  {
    CanonicalHeaderLayout(e, h);
    SplitPartsValid(e.path);
    var s := SplitPath(e.path).value;
    LayoutReads(h, s.name, s.prefix, e.mode, |e.data|, e.kind);
  }

  // ---- One member of a stream ----

  /** A PAX or GNU header with its payload. */
  datatype Extension = Extension(header: Bytes, data: Bytes, padding: Bytes)

  /** How a member reaches the reader: any number of extension headers, then its own header and payload. */
  datatype Encoding = Encoding(extensions: seq<Extension>, header: Bytes, padding: Bytes)

  predicate PaddingFor(padding: Bytes, size: nat) {
    |padding| == Padded(size) - size
  }

  /** The pending path after an extension header of this type; none when the reader refuses it. */
  function Extend(typeByte: Byte, data: Bytes, pending: Option<Bytes>): Option<Option<Bytes>> {
    if typeByte == 0x4C then
      match ParseGnuLongPath(data)
      case Ok(path) => Some(Some(path))
      case Err(_) => None
    else
      match ParsePax(data, map[])
      case Err(_) => None
      case Ok(attributes) =>
        if PATH_KEY !in attributes then Some(pending)
        else if typeByte == 0x78 then Some(Some(attributes[PATH_KEY])) else None
  }

  /** The pending path after a run of extension headers. */
  function PendingAfter(xs: seq<Extension>, pending: Option<Bytes>): Option<Option<Bytes>> {
    if xs == [] then Some(pending)
    else if |xs[0].header| != 512 then None
    else
      match Extend(xs[0].header[156], xs[0].data, pending)
      case None => None
      case Some(next) => PendingAfter(xs[1..], next)
  }

  predicate ExtensionHeader(header: Bytes, size: nat) {
    && |header| == 512 && !AllZero(header) && ChecksumHolds(header)
    && ReadString(header[..100]).Ok? && ReadString(header[345..500]).Ok?
    && ParseOctal(header[124..136]) == Ok(size)
    && (header[156] == 0x78 || header[156] == 0x67 || header[156] == 0x4C)
  }

  predicate AllExtensions(xs: seq<Extension>, limits: Limits) {
    xs == []
    || (&& ExtensionHeader(xs[0].header, |xs[0].data|) && PaddingFor(xs[0].padding, |xs[0].data|)
        && |xs[0].data| <= limits.maxEntryBytes && AllExtensions(xs[1..], limits))
  }

  /** The path of a member: the pending one, or the one in its own header. */
  function MemberPath(header: Bytes, pending: Option<Bytes>): Bytes
    requires |header| == 512 && ReadString(header[..100]).Ok? && ReadString(header[345..500]).Ok?
  {
    if pending.Some? then pending.value else HeaderPath(header)
  }

  /** `enc`, met with a pending path, carries entry `e` under the path `path`. */
  predicate EncodesFrom(pending: Option<Bytes>, enc: Encoding, e: Entry, path: Bytes, limits: Limits) {
    && HeaderFor(enc.header, e.kind, e.mode, |e.data|) && PaddingFor(enc.padding, |e.data|)
    && AllExtensions(enc.extensions, limits)
    && PendingAfter(enc.extensions, pending).Some?
    && path == MemberPath(enc.header, PendingAfter(enc.extensions, pending).value)
  }

  /** `enc` carries entry `e` under the path `path`. */
  predicate Encodes(enc: Encoding, e: Entry, path: Bytes, limits: Limits) {
    EncodesFrom(None, enc, e, path, limits)
  }

  function ExtensionBytes(xs: seq<Extension>): Bytes {
    if xs == [] then [] else (xs[0].header + xs[0].data + xs[0].padding) + ExtensionBytes(xs[1..])
  }

  function EncodedBytes(enc: Encoding, e: Entry): Bytes {
    ExtensionBytes(enc.extensions) + (enc.header + e.data + enc.padding)
  }

  lemma {:induction false} ReadRawOf(header: Bytes, data: Bytes, padding: Bytes, rest: Bytes, limits: Limits)
    requires |header| == 512 && ChecksumHolds(header)
    requires ReadString(header[..100]).Ok? && ReadString(header[345..500]).Ok?
    requires ParseOctal(header[124..136]) == Ok(|data|) && PaddingFor(padding, |data|)
    requires |data| <= limits.maxEntryBytes
    ensures var stream := header + data + padding + rest;
            && stream[..512] == header
            && ReadRaw(stream, limits) == Ok(Raw(ReadString(header[..100]).value, ReadString(header[345..500]).value,
                                                 data, 512 + Padded(|data|)))
            && stream[512 + Padded(|data|)..] == rest
  {
    hide ParseOctal, ReadString, Checksum;
    var stream := header + data + padding + rest;
    assert stream[..512] == header;
    assert stream[512..512 + |data|] == data;
  }

  ghost function Admitted(st: State, e: Entry): State {
    State(st.entries + [e], None, st.fileBytes + (if e.kind == File then |e.data| else 0),
          st.files + (if e.kind == File then 1 else 0))
  }

  /** Room left under the limits for one more entry. */
  predicate Admissible(st: State, e: Entry, limits: Limits) {
    match st
    case State(entries, _, fileBytes, files) =>
      && ValidEntry(e, limits) && !HasPath(entries, e.path)
      && (e.kind == File ==> files + 1 <= limits.maxFileCount && fileBytes + |e.data| <= limits.maxUnpackedBytes)
  }

  lemma {:induction false} AdmitYields(header: Bytes, e: Entry, path: Bytes, limits: Limits, st: State)
    requires HeaderFor(header, e.kind, e.mode, |e.data|)
    ensures Admit(header, path, e.data, limits, st).Ok? ==>
              Admit(header, path, e.data, limits, st).value == Admitted(st, e.(path := path))
    ensures Admissible(st, e.(path := path), limits) ==> Admit(header, path, e.data, limits, st).Ok?
  {
    hide ParseOctal, ReadString, SafePath, LegalMode, HasPath, KindOf, Checksum, AllZero, Valid;
  }

  function AfterAdmit(admitted: Result<State, TarError>, rest: Bytes, limits: Limits): Result<seq<Entry>, TarError> {
    match admitted
    case Err(error) => Err(error)
    case Ok(next) => ParseBlocks(rest, limits, next)
  }

  /** Reading a member header and its payload off the front of a stream. */
  lemma {:induction false} ParseMemberHeader(header: Bytes, padding: Bytes, e: Entry, rest: Bytes, limits: Limits, st: State)
    requires HeaderFor(header, e.kind, e.mode, |e.data|) && PaddingFor(padding, |e.data|)
    requires |e.data| <= limits.maxEntryBytes
    ensures ParseBlocks(header + e.data + padding + rest, limits, st)
            == AfterAdmit(Admit(header, MemberPath(header, st.pending), e.data, limits, st), rest, limits)
  {
    ReadRawOf(header, e.data, padding, rest, limits);
  }

  lemma {:induction false} InterpretExtension(header: Bytes, raw: Raw, limits: Limits, st: State)
    requires |header| == 512 && (header[156] == 0x78 || header[156] == 0x67 || header[156] == 0x4C)
    ensures Interpret(header, raw, limits, st).Ok? <==> Extend(header[156], raw.data, st.pending).Some?
    ensures Extend(header[156], raw.data, st.pending).Some? ==>
              Interpret(header, raw, limits, st) == Ok(st.(pending := Extend(header[156], raw.data, st.pending).value))
  {
    hide ParsePax, ParseGnuLongPath, Admit;
  }

  lemma {:induction false} ParseExtension(x: Extension, rest: Bytes, limits: Limits, st: State)
    requires ExtensionHeader(x.header, |x.data|) && PaddingFor(x.padding, |x.data|) && |x.data| <= limits.maxEntryBytes
    requires Extend(x.header[156], x.data, st.pending).Some?
    ensures ParseBlocks(x.header + x.data + x.padding + rest, limits, st)
            == ParseBlocks(rest, limits, st.(pending := Extend(x.header[156], x.data, st.pending).value))
  {
    var stream := x.header + x.data + x.padding + rest;
    ReadRawOf(x.header, x.data, x.padding, rest, limits);
    var raw := ReadRaw(stream, limits).value;
    InterpretExtension(x.header, raw, limits, st);
    hide ReadRaw, Interpret, Extend, AllZero, ReadString, ParseOctal, Checksum;
  }

  /** A run of extension headers only moves the pending path. */
  lemma {:induction false} ParseExtensions(xs: seq<Extension>, rest: Bytes, limits: Limits, st: State)
    requires AllExtensions(xs, limits) && PendingAfter(xs, st.pending).Some?
    ensures ParseBlocks(ExtensionBytes(xs) + rest, limits, st) == ParseBlocks(rest, limits, st.(pending := PendingAfter(xs, st.pending).value))
  {
    hide ParseBlocks, ExtensionHeader, Extend;
    if xs == [] {
      assert ExtensionBytes(xs) + rest == rest;
    } else {
      var first, more := xs[0].header + xs[0].data + xs[0].padding, ExtensionBytes(xs[1..]);
      assert ExtensionBytes(xs) + rest == first + (more + rest);
      ParseExtension(xs[0], more + rest, limits, st);
      ParseExtensions(xs[1..], rest, limits, st.(pending := Extend(xs[0].header[156], xs[0].data, st.pending).value));
    }
  }

  lemma {:induction false} AdmitIgnoresPending(header: Bytes, path: Bytes, data: Bytes, limits: Limits, st: State, pending: Option<Bytes>)
    requires |header| == 512
    ensures Admit(header, path, data, limits, st.(pending := pending)) == Admit(header, path, data, limits, st)
  {
  }

  lemma {:induction false} HeaderSize(header: Bytes, kind: Kind, mode: nat, size: nat)
    requires HeaderFor(header, kind, mode, size)
    ensures |header| == 512
  {
    hide AllZero, ChecksumHolds, ReadString, ParseOctal;
  }

  /** However the path is encoded, one member hands the reader the same entry. */
  lemma {:induction false} ParseEncoded(enc: Encoding, e: Entry, path: Bytes, rest: Bytes, limits: Limits, st: State)
    requires EncodesFrom(st.pending, enc, e, path, limits) && |e.data| <= limits.maxEntryBytes
    ensures ParseBlocks(EncodedBytes(enc, e) + rest, limits, st)
            == AfterAdmit(Admit(enc.header, path, e.data, limits, st), rest, limits)
  {
    HeaderSize(enc.header, e.kind, e.mode, |e.data|);
    var member, pending := enc.header + e.data + enc.padding, PendingAfter(enc.extensions, st.pending).value;
    assert path == MemberPath(enc.header, pending);
    assert AllExtensions(enc.extensions, limits) && HeaderFor(enc.header, e.kind, e.mode, |e.data|) && PaddingFor(enc.padding, |e.data|);
    hide *;
    ParseExtensions(enc.extensions, member + rest, limits, st);
    EncodedFront(enc, e, rest);
    ParseMemberHeader(enc.header, enc.padding, e, rest, limits, st.(pending := pending));
    AdmitIgnoresPending(enc.header, path, e.data, limits, st, pending);
  }

  lemma {:induction false} EncodedFront(enc: Encoding, e: Entry, rest: Bytes)
    ensures EncodedBytes(enc, e) + rest == ExtensionBytes(enc.extensions) + (enc.header + e.data + enc.padding + rest)
  {
    hide ExtensionBytes;
  }

  // ---- Whole streams ----

  function FileWeight(e: Entry): nat {
    if e.kind == File then 1 else 0
  }

  function DataWeight(e: Entry): nat {
    if e.kind == File then |e.data| else 0
  }

  ghost predicate DistinctPaths(es: seq<Entry>) {
    forall i, j | 0 <= i < j < |es| :: es[i].path != es[j].path
  }

  /** Entries a reader accepts under the limits. */
  ghost predicate ValidArchive(es: seq<Entry>, limits: Limits) {
    && (forall i | 0 <= i < |es| :: ValidEntry(es[i], limits))
    && DistinctPaths(es)
    && Total(es, FileWeight) <= limits.maxFileCount
    && Total(es, DataWeight) <= limits.maxUnpackedBytes
  }

  ghost function StateAfter(es: seq<Entry>): State {
    State(es, None, Total(es, DataWeight), Total(es, FileWeight))
  }

  lemma {:induction false} AdmittedIsStateAfter(es: seq<Entry>, e: Entry)
    ensures Admitted(StateAfter(es), e) == StateAfter(es + [e])
  {
    TotalAppend(es, [e], DataWeight);
    TotalAppend(es, [e], FileWeight);
  }

  lemma {:induction false} PrefixTotal(es: seq<Entry>, k: nat, weight: Entry -> nat)
    requires k < |es|
    ensures Total(es[..k], weight) + weight(es[k]) <= Total(es, weight)
  {
    assert es == es[..k] + ([es[k]] + es[k + 1..]);
    TotalAppend(es[..k], [es[k]] + es[k + 1..], weight);
  }

  lemma {:induction false} PrefixAdmissible(es: seq<Entry>, k: nat, limits: Limits)
    requires ValidArchive(es, limits) && k < |es|
    ensures Admissible(StateAfter(es[..k]), es[k], limits)
  {
    PrefixTotal(es, k, DataWeight);
    PrefixTotal(es, k, FileWeight);
  }

  function Stream(encs: seq<Encoding>, es: seq<Entry>): Bytes
    requires |encs| == |es|
  {
    if es == [] then [] else EncodedBytes(encs[0], es[0]) + Stream(encs[1..], es[1..])
  }

  lemma {:induction false} ParseZeros(zeros: nat, limits: Limits, st: State)
    requires zeros >= 1024 && st.pending.None?
    ensures ParseBlocks(Zeros(zeros), limits, st) == Ok(st.entries)
  {
  }

  /** Extension headers after the last member, none of which leaves a path pending. */
  predicate Trailing(trailer: seq<Extension>, limits: Limits) {
    AllExtensions(trailer, limits) && PendingAfter(trailer, None) == Some(None)
  }

  /** What ends a stream: extension headers without a path to set, then zeros. */
  function Ending(trailer: seq<Extension>, zeros: nat): Bytes {
    ExtensionBytes(trailer) + Zeros(zeros)
  }

  lemma {:induction false} ParseEnd(trailer: seq<Extension>, zeros: nat, limits: Limits, st: State)
    requires Trailing(trailer, limits) && zeros >= 1024 && st.pending.None?
    ensures ParseBlocks(Ending(trailer, zeros), limits, st) == Ok(st.entries)
  {
    hide ParseBlocks, AllExtensions, PendingAfter;
    ParseExtensions(trailer, Zeros(zeros), limits, st);
    assert st.(pending := None) == st;
    ParseZeros(zeros, limits, st);
  }

  /** A continuation that consumes one encoded member and records its entry. */
  ghost predicate Advances(parse: (Bytes, State) -> Result<seq<Entry>, TarError>, limits: Limits) {
    forall enc, e: Entry, done, rest {:trigger parse(EncodedBytes(enc, e) + rest, StateAfter(done))} |
      Encodes(enc, e, e.path, limits) && Admissible(StateAfter(done), e, limits) ::
      parse(EncodedBytes(enc, e) + rest, StateAfter(done)) == parse(rest, StateAfter(done + [e]))
  }

  lemma {:induction false} ParserAdvances(limits: Limits)
    ensures Advances((b, st) => ParseBlocks(b, limits, st), limits)
  {
    var parse := (b, st) => ParseBlocks(b, limits, st);
    forall enc, e: Entry, done, rest | Encodes(enc, e, e.path, limits) && Admissible(StateAfter(done), e, limits)
      ensures parse(EncodedBytes(enc, e) + rest, StateAfter(done)) == parse(rest, StateAfter(done + [e]))
    {
      ParseNext(enc, done, e, rest, limits);
    }
  }

  lemma {:induction false} ParseNext(enc: Encoding, done: seq<Entry>, e: Entry, rest: Bytes, limits: Limits)
    requires Encodes(enc, e, e.path, limits) && Admissible(StateAfter(done), e, limits)
    ensures ParseBlocks(EncodedBytes(enc, e) + rest, limits, StateAfter(done)) == ParseBlocks(rest, limits, StateAfter(done + [e]))
  {
    ParseEncoded(enc, e, e.path, rest, limits, StateAfter(done));
    AdmitYields(enc.header, e, e.path, limits, StateAfter(done));
    AdmittedIsStateAfter(done, e);
    assert e.(path := e.path) == e;
  }

  /** Each encoding carries the entry at its position under the entry's own path. */
  predicate AllEncode(encs: seq<Encoding>, es: seq<Entry>, limits: Limits) {
    && |encs| == |es|
    && (es == [] || (Encodes(encs[0], es[0], es[0].path, limits) && AllEncode(encs[1..], es[1..], limits)))
  }

  lemma {:induction false} StreamHead(encs: seq<Encoding>, es: seq<Entry>, tail: Bytes)
    requires |encs| == |es| && es != []
    ensures Stream(encs, es) + tail == EncodedBytes(encs[0], es[0]) + (Stream(encs[1..], es[1..]) + tail)
  {
  }

  /** Each entry still to come is admissible when its turn comes. */
  ghost predicate AllAdmissible(done: seq<Entry>, todo: seq<Entry>, limits: Limits)
    decreases |todo|
  {
    todo == [] || (Admissible(StateAfter(done), todo[0], limits) && AllAdmissible(done + [todo[0]], todo[1..], limits))
  }

  lemma {:induction false} ValidIsAdmissible(done: seq<Entry>, todo: seq<Entry>, limits: Limits)
    requires ValidArchive(done + todo, limits)
    ensures AllAdmissible(done, todo, limits)
    decreases |todo|
  {
    if todo != [] {
      PrefixAdmissible(done + todo, |done|, limits);
      assert (done + todo)[..|done|] == done;
      ShiftHead(done, todo);
      ValidIsAdmissible(done + [todo[0]], todo[1..], limits);
    }
  }

  /** The entries still to come, in any mix of path encodings, after the ones already read. */
  lemma {:induction false} StreamAdvances(parse: (Bytes, State) -> Result<seq<Entry>, TarError>, encs: seq<Encoding>,
                                          done: seq<Entry>, todo: seq<Entry>, tail: Bytes, limits: Limits)
    requires Advances(parse, limits) && AllEncode(encs, todo, limits) && AllAdmissible(done, todo, limits)
    ensures parse(Stream(encs, todo) + tail, StateAfter(done)) == parse(tail, StateAfter(done + todo))
    decreases |todo|
  {
    hide EncodesFrom, Admissible, EncodedBytes;
    if todo == [] {
      assert Stream(encs, todo) + tail == tail && done + todo == done;
    } else {
      var e, rest := todo[0], Stream(encs[1..], todo[1..]) + tail;
      ShiftHead(done, todo);
      StreamAdvances(parse, encs[1..], done + [e], todo[1..], tail, limits);
      StreamHead(encs, todo, tail);
      assert parse(EncodedBytes(encs[0], e) + rest, StateAfter(done)) == parse(rest, StateAfter(done + [e]));
    }
  }

  /**
   * Member order aside, uid, mtime, padding, the choice of ustar, PAX or GNU paths and any extension headers
   * that set no path never show in the result.
   */
  lemma {:induction false} ParseStream(encs: seq<Encoding>, es: seq<Entry>, trailer: seq<Extension>, zeros: nat, limits: Limits)
    requires AllEncode(encs, es, limits) && Trailing(trailer, limits) && zeros >= 1024 && ValidArchive(es, limits)
    ensures ParseTar(Stream(encs, es) + Ending(trailer, zeros), limits) == Ok(es)
  {
    assert [] + es == es && StateAfter([]) == START;
    ValidIsAdmissible([], es, limits);
    ParserAdvances(limits);
    hide ParseBlocks, Stream, ValidArchive, AllEncode, AllAdmissible, Trailing, Ending;
    StreamAdvances((b, st) => ParseBlocks(b, limits, st), encs, [], es, Ending(trailer, zeros), limits);
    ParseEnd(trailer, zeros, limits, StateAfter(es));
  }

  // ---- The extension payloads writers produce ----

  function NumeralBytes(n: nat): (r: Bytes)
    ensures |r| == |ToDecimal(n)|
  {
    ToDecimalValue(n);
    seq(|ToDecimal(n)|, i requires 0 <= i < |ToDecimal(n)| => ToDecimal(n)[i] as int)
  }

  lemma {:induction false} NumeralBytesRead(n: nat)
    requires n > 0
    ensures DecimalBytes(NumeralBytes(n)) && Value(DecimalText(NumeralBytes(n))) == n
  {
    ToDecimalValue(n);
    assert DecimalText(NumeralBytes(n)) == ToDecimal(n);
  }

  lemma {:induction false} AsciiFixed(s: Bytes)
    requires forall i | 0 <= i < |s| :: s[i] < 0x80
    ensures Ascii(s) == s
  {
  }

  lemma {:induction false} LastOf(body: Bytes, key: Bytes, value: Bytes)
    requires body == key + [0x3D] + (value + [0x0A])
    ensures body[|body| - 1] == 0x0A && body[|key| + 1..|body| - 1] == value
  {
  }

  lemma {:induction false} PaxBodyShape(body: Bytes, key: Bytes, value: Bytes)
    requires body == key + [0x3D] + (value + [0x0A]) && 0x3D !in key
    ensures IndexOf(body, 0x3D) == |key| < |body| && body[..|key|] == key
    ensures body[|body| - 1] == 0x0A && body[|key| + 1..|body| - 1] == value
  {
    IndexOfFirst(body, key, 0x3D, value + [0x0A]);
    LastOf(body, key, value);
  }

  lemma {:induction false} ReadShapedBody(body: Bytes, key: Bytes, value: Bytes, length: nat)
    requires key != [] && IndexOf(body, 0x3D) == |key| < |body| && body[..|key|] == key && Ascii(key) == key
    requires body[|body| - 1] == 0x0A && |key| + 1 <= |body| - 1 && body[|key| + 1..|body| - 1] == value && Decode(value) == Some(value)
    ensures ReadPaxBody(body, length) == Ok(PaxRecord(key, value, length))
  {
    hide IndexOf, Decode, Ascii;
  }

  lemma {:induction false} ReadPaxBodyOf(body: Bytes, key: Bytes, value: Bytes, length: nat)
    requires body == key + [0x3D] + (value + [0x0A])
    requires key != [] && 0x3D !in key && (forall i | 0 <= i < |key| :: key[i] < 0x80)
    requires Valid(value) && !StartsWithBom(value)
    ensures ReadPaxBody(body, length) == Ok(PaxRecord(key, value, length))
  {
    assert Decode(value) == Some(value);
    PaxBodyShape(body, key, value);
    AsciiFixed(key);
    ReadShapedBody(body, key, value, length);
  }

  lemma {:induction false} ReadPaxOf(record: Bytes, digits: Bytes, body: Bytes)
    requires record == digits + [0x20] + body && body != []
    requires DecimalBytes(digits) && Value(DecimalText(digits)) == |record|
    ensures ReadPaxRecord(record) == ReadPaxBody(body, |record|)
  {
    hide ReadPaxBody, Value, DecimalText;
    assert 0x20 !in digits;
    IndexOfFirst(record, digits, 0x20, body);
    AsciiFixed(digits);
    assert record[|digits| + 1..|record|] == body;
  }

  /** "<length> path=<path>\n", where the length counts the whole record. */
  function PaxPathRecord(length: nat, path: Bytes): Bytes {
    NumeralBytes(length) + [0x20] + (PATH_KEY + [0x3D] + (path + [0x0A]))
  }

  lemma {:induction false} KeyIsPlain()
    ensures PATH_KEY != [] && 0x3D !in PATH_KEY && forall i | 0 <= i < |PATH_KEY| :: PATH_KEY[i] < 0x80
  {
  }

  /** A PAX record sets the path it spells. */
  lemma {:induction false} PaxPathRecordReads(length: nat, path: Bytes)
    requires length == |PaxPathRecord(length, path)|
    requires Valid(path) && !StartsWithBom(path)
    ensures forall pending :: Extend(0x78, PaxPathRecord(length, path), pending) == Some(Some(path))
  {
    var record, body := PaxPathRecord(length, path), PATH_KEY + [0x3D] + (path + [0x0A]);
    NumeralBytesRead(length);
    KeyIsPlain();
    hide ReadPaxRecord, ReadPaxBody, ParsePax, PaxPathRecord, NumeralBytes, DecimalBytes, DecimalText, Value;
    assert record == NumeralBytes(length) + [0x20] + body by { PaxPathRecordShape(length, path); }
    ReadPaxOf(record, NumeralBytes(length), body);
    ReadPaxBodyOf(body, PATH_KEY, path, length);
    SingleRecord(record, PATH_KEY, path);
  }

  lemma {:induction false} PaxPathRecordShape(length: nat, path: Bytes)
    ensures PaxPathRecord(length, path) == NumeralBytes(length) + [0x20] + (PATH_KEY + [0x3D] + (path + [0x0A]))
  {
  }

  lemma {:induction false} SingleRecord(record: Bytes, key: Bytes, value: Bytes)
    requires record != [] && ReadPaxRecord(record) == Ok(PaxRecord(key, value, |record|))
    ensures ParsePax(record, map[]) == Ok(map[key := value])
  {
    assert record[|record|..] == [];
  }

  /** A NUL-terminated GNU long path sets the path before the NUL. */
  lemma {:induction false} GnuLongPathReads(path: Bytes, data: Bytes, zeros: nat)
    requires Valid(path) && !StartsWithBom(path) && 0 !in path
    requires path != [] ==> path[|path| - 1] != 0x0A
    requires data == path + [0] + Zeros(zeros)
    ensures ParseGnuLongPath(data) == Ok(path)
  {
    IndexOfFirst(data, path, 0, Zeros(zeros));
    assert data[..IndexOf(data, 0)] == path;
    assert Decode(path) == Some(path);
  }

  // ---- Streams whose paths the encodings change ----

  predicate AllEncodeAs(encs: seq<Encoding>, es: seq<Entry>, paths: seq<Bytes>, limits: Limits) {
    && |encs| == |es| == |paths|
    && (es == [] || (&& Encodes(encs[0], es[0], paths[0], limits) && |es[0].data| <= limits.maxEntryBytes
                     && AllEncodeAs(encs[1..], es[1..], paths[1..], limits)))
  }

  function Renamed(es: seq<Entry>, paths: seq<Bytes>): (r: seq<Entry>)
    requires |es| == |paths|
    ensures |r| == |es|
  {
    if es == [] then [] else [es[0].(path := paths[0])] + Renamed(es[1..], paths[1..])
  }

  /** A continuation that either rejects an encoded member or records it under its encoded path. */
  ghost predicate Yields(parse: (Bytes, State) -> Result<seq<Entry>, TarError>, limits: Limits) {
    forall enc, e: Entry, path, st: State, rest {:trigger parse(EncodedBytes(enc, e) + rest, st), Encodes(enc, e, path, limits)} |
      Encodes(enc, e, path, limits) && |e.data| <= limits.maxEntryBytes && st.pending.None? ::
      parse(EncodedBytes(enc, e) + rest, st).Ok? ==>
        parse(EncodedBytes(enc, e) + rest, st) == parse(rest, Admitted(st, e.(path := path)))
  }

  lemma {:induction false} ParserYields(limits: Limits)
    ensures Yields((b, st) => ParseBlocks(b, limits, st), limits)
  {
    var parse := (b, st) => ParseBlocks(b, limits, st);
    forall enc, e: Entry, path, st: State, rest |
      Encodes(enc, e, path, limits) && |e.data| <= limits.maxEntryBytes && st.pending.None?
      ensures parse(EncodedBytes(enc, e) + rest, st).Ok? ==>
                parse(EncodedBytes(enc, e) + rest, st) == parse(rest, Admitted(st, e.(path := path)))
    {
      ParseEncoded(enc, e, path, rest, limits, st);
      AdmitYields(enc.header, e, path, limits, st);
    }
  }

  lemma {:induction false} StreamYields(parse: (Bytes, State) -> Result<seq<Entry>, TarError>, encs: seq<Encoding>,
                                        es: seq<Entry>, paths: seq<Bytes>, tail: Bytes, limits: Limits, st: State)
    returns (end: State)
    requires Yields(parse, limits) && AllEncodeAs(encs, es, paths, limits) && st.pending.None?
    requires parse(Stream(encs, es) + tail, st).Ok?
    ensures parse(Stream(encs, es) + tail, st) == parse(tail, end)
    ensures end.pending.None? && end.entries == st.entries + Renamed(es, paths)
    decreases |es|
  {
    hide EncodesFrom, EncodedBytes;
    if es == [] {
      assert Stream(encs, es) + tail == tail;
      end := st;
    } else {
      var next := Admitted(st, es[0].(path := paths[0]));
      StreamHead(encs, es, tail);
      end := StreamYields(parse, encs[1..], es[1..], paths[1..], tail, limits, next);
      AppendAssociates(st.entries, [es[0].(path := paths[0])], Renamed(es[1..], paths[1..]));
    }
  }

  lemma {:induction false} AppendAssociates<T>(a: seq<T>, b: seq<T>, c: seq<T>)
    ensures a + b + c == a + (b + c)
  {
  }

  /** Whatever the encodings say the paths are, an accepted stream returns those entries, in order. */
  lemma {:induction false} ParseStreamAs(encs: seq<Encoding>, es: seq<Entry>, paths: seq<Bytes>, trailer: seq<Extension>, zeros: nat, limits: Limits)
    requires AllEncodeAs(encs, es, paths, limits) && Trailing(trailer, limits) && zeros >= 1024
    requires ParseTar(Stream(encs, es) + Ending(trailer, zeros), limits).Ok?
    ensures ParseTar(Stream(encs, es) + Ending(trailer, zeros), limits) == Ok(Renamed(es, paths))
  {
    assert |encs| == |es| == |paths|;
    hide ParseBlocks, Stream, AllEncodeAs, Trailing, Ending;
    var parse := (b, st) => ParseBlocks(b, limits, st);
    var tail := Ending(trailer, zeros);
    var stream := Stream(encs, es) + tail;
    assert parse(stream, START) == ParseTar(stream, limits);
    ParserYields(limits);
    var end := StreamYields(parse, encs, es, paths, tail, limits, START);
    assert parse(tail, end) == ParseBlocks(tail, limits, end);
    ParseEnd(trailer, zeros, limits, end);
    assert [] + Renamed(es, paths) == Renamed(es, paths);
  }

  // ---- The canonical writer ----

  function CanonicalEncoding(e: Entry): Encoding
    requires CanonicalHeader(e).Ok?
  {
    Encoding([], CanonicalHeader(e).value, Zeros(Padded(|e.data|) - |e.data|))
  }

  function CanonicalEncodings(es: seq<Entry>): (encs: seq<Encoding>)
    requires Members(es).Ok?
    ensures |encs| == |es|
  {
    if es == [] then [] else [CanonicalEncoding(es[0])] + CanonicalEncodings(es[1..])
  }

  predicate AllValid(es: seq<Entry>, limits: Limits) {
    es == [] || (ValidEntry(es[0], limits) && AllValid(es[1..], limits))
  }

  lemma {:induction false} CanonicalMember(e: Entry, h: Bytes, limits: Limits)
    requires ValidEntry(e, limits) && CanonicalHeader(e) == Ok(h)
    ensures EncodedBytes(CanonicalEncoding(e), e) == WithPayload(h, e)
    ensures SplitPath(e.path).Ok? && Valid(SplitPath(e.path).value.name)
    ensures Encodes(CanonicalEncoding(e), e, ReadBackPath(e.path), limits)
  {
    DirectoryIsEmpty(e, limits);
    CanonicalHeaderReads(e, h, limits);
    hide CanonicalHeader, Valid, HeaderFor, HeaderPath, SplitPath, ReadBackPath, ValidEntry, WithPayload, EncodedBytes, EncodesFrom;
    CanonicalBytes(e, h);
    PlainEncodes(CanonicalEncoding(e), e, ReadBackPath(e.path), limits);
  }

  lemma {:induction false} PlainEncodes(enc: Encoding, e: Entry, path: Bytes, limits: Limits)
    requires enc.extensions == [] && HeaderFor(enc.header, e.kind, e.mode, |e.data|) && PaddingFor(enc.padding, |e.data|)
    requires HeaderPath(enc.header) == path
    ensures Encodes(enc, e, path, limits)
  {
    hide ReadString, ParseOctal, ChecksumHolds, AllZero, HeaderPath;
  }

  lemma {:induction false} DirectoryIsEmpty(e: Entry, limits: Limits)
    requires ValidEntry(e, limits)
    ensures e.kind == Directory ==> e.data == []
  {
    hide SafePath, Valid;
  }

  lemma {:induction false} CanonicalBytes(e: Entry, h: Bytes)
    requires CanonicalHeader(e) == Ok(h) && (e.kind == Directory ==> e.data == [])
    ensures EncodedBytes(CanonicalEncoding(e), e) == WithPayload(h, e)
  {
    hide CanonicalHeader;
    if e.kind == Directory { assert Padded(0) == 0 && h + [] + [] == h; }
  }

  function ReadBackPaths(es: seq<Entry>, limits: Limits): (paths: seq<Bytes>)
    requires AllValid(es, limits) && Members(es).Ok?
    ensures |paths| == |es|
  {
    if es == [] then []
    else
      CanonicalMember(es[0], CanonicalHeader(es[0]).value, limits);
      [ReadBackPath(es[0].path)] + ReadBackPaths(es[1..], limits)
  }

  /** The canonical body is a stream of ustar-encoded members. */
  lemma {:induction false} MembersAreEncoded(es: seq<Entry>, limits: Limits)
    requires AllValid(es, limits) && Members(es).Ok?
    ensures Members(es).value == Stream(CanonicalEncodings(es), es)
    ensures AllEncodeAs(CanonicalEncodings(es), es, ReadBackPaths(es, limits), limits)
  {
    if es != [] {
      MembersAreEncoded(es[1..], limits);
      CanonicalMember(es[0], CanonicalHeader(es[0]).value, limits);
      var encs, paths := CanonicalEncodings(es), ReadBackPaths(es, limits);
      assert encs[1..] == CanonicalEncodings(es[1..]) && paths[1..] == ReadBackPaths(es[1..], limits);
    }
  }
}
