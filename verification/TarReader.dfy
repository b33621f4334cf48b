/** The tar reader: ustar members, PAX and GNU path extensions, resource limits (scripts/release-evidence.ts). */
module TarReader {
  import opened Bytes
  import opened Decimal
  import opened TarFields
  import opened Text
  import opened Utf8
  import opened Wrappers

  datatype Kind = File | Directory
  datatype Entry = Entry(path: Bytes, mode: nat, kind: Kind, data: Bytes)
  datatype Limits = Limits(maxCompressedBytes: nat, maxUnpackedBytes: nat, maxEntryBytes: nat, maxFileCount: nat)

  const MAX_SAFE: nat := 0x1F_FFFF_FFFF_FFFF

  predicate LegalLimits(l: Limits) {
    && 0 < l.maxCompressedBytes <= MAX_SAFE && 0 < l.maxUnpackedBytes <= MAX_SAFE
    && 0 < l.maxEntryBytes <= MAX_SAFE && 0 < l.maxFileCount <= MAX_SAFE
    && l.maxEntryBytes <= l.maxUnpackedBytes
  }

  const SLASH: Byte := 0x2F
  const PACKAGE: Bytes := [0x70, 0x61, 0x63, 0x6B, 0x61, 0x67, 0x65]
  const PATH_KEY: Bytes := [0x70, 0x61, 0x74, 0x68]

  function WithoutTrailingSlash(path: Bytes): Bytes {
    if path != [] && path[|path| - 1] == SLASH then path[..|path| - 1] else path
  }

  predicate UnsafeSegment(s: Bytes) {
    s == [] || s == [0x2E] || s == [0x2E, 0x2E]
  }

  predicate SafePath(path: Bytes) {
    var normalized := WithoutTrailingSlash(path);
    && (normalized == PACKAGE || PACKAGE + [SLASH] <= normalized)
    && 0x5C !in normalized && 0 !in normalized
    && !(exists s | s in Split(normalized, SLASH) :: UnsafeSegment(s))
  }

  /** Bytes a payload of this size occupies, in whole blocks. */
  function Padded(size: nat): (p: nat)
    ensures size <= p < size + 512 && p % 512 == 0
  {
    (size + 511) / 512 * 512
  }

  // ---- PAX attributes ----

  predicate DecimalBytes(s: Bytes) {
    s != [] && s[0] != 0x30 && forall i | 0 <= i < |s| :: 0x30 <= s[i] < 0x3A
  }

  function DecimalText(s: Bytes): (r: string)
    requires forall i | 0 <= i < |s| :: 0x30 <= s[i] < 0x3A
    ensures |r| == |s| && Digits(r)
  {
    seq(|s|, i requires 0 <= i < |s| => s[i] as char)
  }

  datatype PaxRecord = PaxRecord(key: Bytes, value: Bytes, length: nat)

  /** The number in front of a record's first space. */
  function PaxLength(text: Bytes): Result<nat, TarError> {
    if !DecimalBytes(text) then Err(PaxBadLength) else Ok(Value(DecimalText(text)))
  }

  /** key=value and a final newline. */
  function ReadPaxBody(body: Bytes, length: nat): (r: Result<PaxRecord, TarError>)
    requires body != []
    ensures r.Ok? ==> r.value.length == length
  {
    if body[|body| - 1] != 0x0A then Err(PaxNotTerminated)
    else
      var equals := IndexOf(body, 0x3D);
      if equals == |body| || equals == 0 then Err(PaxNoKey)
      else
        match Decode(body[equals + 1..|body| - 1])
        case None => Err(NotUtf8)
        case Some(value) => Ok(PaxRecord(Ascii(body[..equals]), value, length))
  }

  function ReadPaxRecord(rest: Bytes): (r: Result<PaxRecord, TarError>)
    ensures r.Ok? ==> 0 < r.value.length <= |rest|
  {
    var space := IndexOf(rest, 0x20);
    if space == |rest| then Err(PaxNoSeparator)
    else
      var length :- PaxLength(Ascii(rest[..space]));
      if length > |rest| || length <= space + 1 then Err(PaxTruncated)
      else ReadPaxBody(rest[space + 1..length], length)
  }

  /** Attributes after reading the remaining records; a repeated key keeps its last value. */
  function ParsePax(rest: Bytes, attributes: map<Bytes, Bytes>): Result<map<Bytes, Bytes>, TarError>
    decreases |rest|
  {
    if rest == [] then Ok(attributes)
    else
      var record :- ReadPaxRecord(rest);
      ParsePax(rest[record.length..], attributes[record.key := record.value])
  }

  lemma {:induction false} ParsePaxAt(data: Bytes, offset: nat, attributes: map<Bytes, Bytes>, record: Result<PaxRecord, TarError>)
    requires offset < |data| && record == ReadPaxRecord(data[offset..])
    ensures record.Err? ==> ParsePax(data[offset..], attributes) == Err(record.error)
    ensures record.Ok? ==> ParsePax(data[offset..], attributes)
                           == ParsePax(data[offset + record.value.length..], attributes[record.value.key := record.value.value])
  {
    if record.Ok? { assert data[offset..][record.value.length..] == data[offset + record.value.length..]; }
  }

  method ParsePaxAttributes(data: Bytes) returns (r: Result<map<Bytes, Bytes>, TarError>)
    ensures r == ParsePax(data, map[])
  {
    hide ReadPaxRecord;
    var attributes, offset := map[], 0;
    assert data[0..] == data;
    while offset < |data|
      invariant offset <= |data|
      invariant ParsePax(data[offset..], attributes) == ParsePax(data, map[])
    {
      var record := ReadPaxRecord(data[offset..]);
      ParsePaxAt(data, offset, attributes, record);
      if record.Err? {
        return Err(record.error);
      }
      attributes := attributes[record.value.key := record.value.value];
      offset := offset + record.value.length;
    }
    return Ok(attributes);
  }

  // ---- GNU long path ----

  function ParseGnuLongPath(data: Bytes): Result<Bytes, TarError> {
    match Decode(data[..IndexOf(data, 0)])
    case None => Err(NotUtf8)
    case Some(text) => Ok(if text != [] && text[|text| - 1] == 0x0A then text[..|text| - 1] else text)
  }

  // ---- Members ----

  datatype State = State(entries: seq<Entry>, pending: Option<Bytes>, fileBytes: nat, files: nat)

  const START := State([], None, 0, 0)

  predicate HasPath(entries: seq<Entry>, path: Bytes) {
    exists i | 0 <= i < |entries| :: entries[i].path == path
  }

  predicate LegalMode(mode: nat) {
    mode < 512 && mode / 2 % 2 == 0
  }

  function KindOf(typeByte: Byte): Option<Kind> {
    if typeByte == 0 || typeByte == 0x30 then Some(File)
    else if typeByte == 0x35 then Some(Directory)
    else None
  }

  function FullPath(prefix: Bytes, name: Bytes): Bytes {
    if prefix != [] then prefix + [SLASH] + name else name
  }

  /** Admits a regular or directory member under the limits, or says why not. */
  function Admit(header: Bytes, path: Bytes, data: Bytes, limits: Limits, st: State): Result<State, TarError>
    requires |header| == 512
  {
    if !SafePath(path) then Err(UnsafePath)
    else
      var mode :- ParseOctal(header[100..108]);
      var kind := KindOf(header[156]);
      if !LegalMode(mode) then Err(UnsafeMode)
      else if kind.None? then Err(UnsupportedType)
      else if kind.value == Directory && data != [] then Err(DirectoryWithData)
      else if HasPath(st.entries, path) then Err(DuplicateMember)
      else if kind.value == File && st.files + 1 > limits.maxFileCount then Err(TooManyFiles)
      else if kind.value == File && st.fileBytes + |data| > limits.maxUnpackedBytes then Err(FileDataTooLarge)
      else
        var isFile := kind.value == File;
        Ok(State(st.entries + [Entry(path, mode, kind.value, data)], None,
                 st.fileBytes + (if isFile then |data| else 0), st.files + (if isFile then 1 else 0)))
  }

  datatype Raw = Raw(name: Bytes, prefix: Bytes, data: Bytes, length: nat)

  /** Header fields and payload at the front of a stream. */
  function ReadRaw(rest: Bytes, limits: Limits): (r: Result<Raw, TarError>)
    requires |rest| >= 512
    ensures r.Ok? ==> r.value.length == 512 + Padded(|r.value.data|) <= |rest|
    ensures r.Ok? ==> |r.value.data| <= limits.maxEntryBytes && Valid(r.value.name) && Valid(r.value.prefix)
  {
    var header := rest[..512];
    var stored :- ParseOctal(header[148..156]);
    if stored != Checksum(header) then Err(ChecksumMismatch)
    else
      var name :- ReadString(header[..100]);
      var prefix :- ReadString(header[345..500]);
      var size :- ParseOctal(header[124..136]);
      if size > limits.maxEntryBytes then Err(EntryTooLarge)
      else if 512 + Padded(size) > |rest| then Err(TruncatedMember)
      else Ok(Raw(name, prefix, rest[512..512 + size], 512 + Padded(size)))
  }

  /** What one non-zero header does to the parser state. */
  function Interpret(header: Bytes, raw: Raw, limits: Limits, st: State): Result<State, TarError>
    requires |header| == 512
  {
    if header[156] == 0x78 || header[156] == 0x67 then
      var attributes :- ParsePax(raw.data, map[]);
      if header[156] == 0x67 && PATH_KEY in attributes then Err(GlobalPaxPath)
      else if header[156] == 0x78 && PATH_KEY in attributes then Ok(st.(pending := Some(attributes[PATH_KEY])))
      else Ok(st)
    else if header[156] == 0x4C then
      var path :- ParseGnuLongPath(raw.data);
      Ok(st.(pending := Some(path)))
    else
      var path := if st.pending.Some? then st.pending.value else FullPath(raw.prefix, raw.name);
      Admit(header, path, raw.data, limits, st)
  }

  function Terminate(rest: Bytes, st: State): Result<seq<Entry>, TarError> {
    if st.pending.Some? then Err(DanglingPathExtension)
    else if |rest| < 1024 || !AllZero(rest[..1024]) then Err(MissingSecondZeroBlock)
    else if !AllZero(rest[1024..]) then Err(DataAfterTerminator)
    else Ok(st.entries)
  }

  datatype Progress = Stop(result: Result<seq<Entry>, TarError>) | Continue(state: State, consumed: nat)

  /** One iteration of the reading loop at the front of a stream of at least one block. */
  function Step(rest: Bytes, limits: Limits, st: State): (p: Progress)
    requires |rest| >= 512
    ensures p.Continue? ==> 512 <= p.consumed <= |rest|
  {
    if AllZero(rest[..512]) then Stop(Terminate(rest, st))
    else
      match ReadRaw(rest, limits)
      case Err(e) => Stop(Err(e))
      case Ok(raw) =>
        match Interpret(rest[..512], raw, limits, st)
        case Err(e) => Stop(Err(e))
        case Ok(next) => Continue(next, raw.length)
  }

  /** Entries of the stream `rest`, continuing from a parser state. */
  function ParseBlocks(rest: Bytes, limits: Limits, st: State): Result<seq<Entry>, TarError>
    decreases |rest|
  {
    if |rest| < 512 then Err(MissingTerminator)
    else
      match Step(rest, limits, st)
      case Stop(result) => result
      case Continue(next, consumed) => ParseBlocks(rest[consumed..], limits, next)
  }

  function ParseTar(tar: Bytes, limits: Limits): Result<seq<Entry>, TarError> {
    ParseBlocks(tar, limits, START)
  }

  /** The whole reader; `gunzip` is the decompressor, absent on a malformed stream. */
  function ParseTarball(tarball: Bytes, limits: Limits, gunzip: Bytes -> Option<Bytes>): Result<seq<Entry>, TarError> {
    if !LegalLimits(limits) then Err(BadLimits)
    else if |tarball| > limits.maxCompressedBytes then Err(CompressedTooLarge)
    else
      match gunzip(tarball)
      case None => Err(NotGzip)
      case Some(tar) => if |tar| > limits.maxUnpackedBytes then Err(UnpackedTooLarge) else ParseTar(tar, limits)
  }

  function BlankedSum(header: Bytes, n: nat): nat
    requires n <= |header|
  {
    if n == 0 then 0
    else BlankedSum(header, n - 1) + (if 148 <= n - 1 < 156 then 0x20 else header[n - 1])
  }

  lemma {:induction false} BlankedSumRange(header: Bytes, from: nat, n: nat)
    requires from <= n <= |header| && (n <= 148 || 156 <= from)
    ensures BlankedSum(header, n) == BlankedSum(header, from) + Sum(header[from..n])
  {
    if n > from {
      BlankedSumRange(header, from, n - 1);
      assert header[from..n] == header[from..n - 1] + [header[n - 1]];
      SumAppend(header[from..n - 1], [header[n - 1]]);
      assert Sum([header[n - 1]]) == header[n - 1];
    }
  }

  lemma {:induction false} BlankedMiddle(header: Bytes, n: nat)
    requires |header| == 512 && 148 <= n <= 156
    ensures BlankedSum(header, n) == BlankedSum(header, 148) + (n - 148) * 0x20
  {
    if n > 148 { BlankedMiddle(header, n - 1); }
  }

  /** The byte-by-byte sum with a blanked field is the checksum. */
  lemma {:induction false} BlankedSumIsChecksum(header: Bytes)
    requires |header| == 512
    ensures BlankedSum(header, 512) == Checksum(header)
  {
    BlankedSumRange(header, 0, 148);
    BlankedSumRange(header, 156, 512);
    assert header[0..148] == header[..148] && header[156..512] == header[156..];
    BlankedMiddle(header, 156);
  }

  method AssertTarChecksum(header: Bytes) returns (r: Result<(), TarError>)
    requires |header| == 512
    ensures r.Ok? <==> ChecksumHolds(header)
    ensures r.Err? ==> r.error == (if ParseOctal(header[148..156]).Err? then NotOctal else ChecksumMismatch)
  {
    var stored := ParseOctal(header[148..156]);
    if stored.Err? {
      return Err(stored.error);
    }
    var calculated: nat := 0;
    for index := 0 to 512
      invariant calculated == BlankedSum(header, index)
    {
      var byte: int := if 148 <= index < 156 then 0x20 else header[index];
      calculated := calculated + byte;
    }
    BlankedSumIsChecksum(header);
    if stored.value != calculated {
      return Err(ChecksumMismatch);
    }
    return Ok(());
  }

  /** The reading loop over offsets refines the recursive reader. */
  method ParseTarEntries(tarball: Bytes, limits: Limits, gunzip: Bytes -> Option<Bytes>)
    returns (r: Result<seq<Entry>, TarError>)
    ensures r == ParseTarball(tarball, limits, gunzip)
  {
    if !LegalLimits(limits) {
      return Err(BadLimits);
    }
    if |tarball| > limits.maxCompressedBytes {
      return Err(CompressedTooLarge);
    }
    var unpacked := gunzip(tarball);
    if unpacked.None? {
      return Err(NotGzip);
    }
    var tar := unpacked.value;
    if |tar| > limits.maxUnpackedBytes {
      return Err(UnpackedTooLarge);
    }
    var st, offset := START, 0;
    while offset + 512 <= |tar|
      invariant offset <= |tar|
      invariant ParseBlocks(tar[offset..], limits, st) == ParseBlocks(tar, limits, START)
      decreases |tar| - offset
    {
      var step := Step(tar[offset..], limits, st);
      if step.Stop? {
        return step.result;
      }
      assert tar[offset..][step.consumed..] == tar[offset + step.consumed..];
      st, offset := step.state, offset + step.consumed;
    }
    return Err(MissingTerminator);
  }
}
