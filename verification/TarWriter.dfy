/** The canonical ustar writer: path split, header layout, member order (scripts/release-evidence.ts). */
module TarWriter {
  import opened Bytes
  import opened Sorting
  import opened TarFields
  import opened TarReader
  import opened Wrappers

  // ---- Splitting a path between prefix and name ----

  datatype UstarName = UstarName(name: Bytes, prefix: Bytes)

  predicate SplitsAt(path: Bytes, i: int) {
    0 < i < |path| && path[i] == SLASH && i <= 155 && |path| - i - 1 <= 100
  }

  predicate FitsUstar(path: Bytes) {
    |path| <= 100 || exists i | 0 < i < |path| :: SplitsAt(path, i)
  }

  /** Searches for a split point at `index` or to its left. */
  function SplitFrom(path: Bytes, index: nat): Result<UstarName, TarError>
    requires index < |path|
  {
    if index == 0 then Err(PathTooLong)
    else if SplitsAt(path, index) then Ok(UstarName(path[index + 1..], path[..index]))
    else SplitFrom(path, index - 1)
  }

  function SplitPath(path: Bytes): Result<UstarName, TarError> {
    if |path| <= 100 then Ok(UstarName(path, [])) else SplitFrom(path, |path| - 1)
  }

  method SplitUstarPath(path: Bytes) returns (r: Result<UstarName, TarError>)
    ensures r == SplitPath(path)
  {
    if |path| <= 100 {
      return Ok(UstarName(path, []));
    }
    var index := |path| - 1;
    while index > 0
      invariant 0 <= index < |path|
      invariant SplitFrom(path, index) == SplitPath(path)
    {
      if path[index] == SLASH && index <= 155 && |path| - index - 1 <= 100 {
        return Ok(UstarName(path[index + 1..], path[..index]));
      }
      index := index - 1;
    }
    return Err(PathTooLong);
  }

  lemma {:induction false} SplitFromSound(path: Bytes, index: nat)
    requires index < |path|
    ensures SplitFrom(path, index).Ok? <==> exists i | 0 < i <= index :: SplitsAt(path, i)
    ensures SplitFrom(path, index).Ok? ==>
              var s := SplitFrom(path, index).value;
              exists i | 0 < i <= index ::
                SplitsAt(path, i) && s == UstarName(path[i + 1..], path[..i]) && forall j | i < j <= index :: !SplitsAt(path, j)
  {
    if index > 0 && !SplitsAt(path, index) { SplitFromSound(path, index - 1); }
  }

  /** A split exists exactly when the path fits, and joining its parts gives the path back. */
  lemma {:induction false} SplitPathSound(path: Bytes)
    ensures SplitPath(path).Ok? <==> FitsUstar(path)
    ensures SplitPath(path).Ok? ==>
              var s := SplitPath(path).value;
              |s.name| <= 100 && |s.prefix| <= 155 && FullPath(s.prefix, s.name) == path
    ensures SplitPath(path).Ok? && SplitPath(path).value.prefix != [] ==>
              var n := |SplitPath(path).value.prefix|;
              n < |path| && path[n] == SLASH && SplitPath(path).value == UstarName(path[n + 1..], path[..n])
  {
    if |path| > 100 { SplitFromSound(path, |path| - 1); }
  }

  // ---- Header layout ----

  const MAGIC: Bytes := [0x75, 0x73, 0x74, 0x61, 0x72, 0, 0x30, 0x30]

  lemma {:induction false} Pow8Facts()
    ensures Pow8(6) == 0x4_0000 && Pow8(7) == 0x20_0000 && Pow8(11) == 0x2_0000_0000
  {
    assert Pow8(2) == 64 && Pow8(4) == 4096 by { assert Pow8(1) == 8 * Pow8(0); assert Pow8(3) == 8 * Pow8(2); }
    assert Pow8(5) == 8 * Pow8(4);
    assert Pow8(8) == 8 * Pow8(7) && Pow8(9) == 8 * Pow8(8) && Pow8(10) == 8 * Pow8(9);
  }

  function Front(name: Bytes, mode: nat, size: nat): (r: Bytes)
    requires |name| <= 100 && size < Pow8(11)
    ensures |r| == 148
  {
    Pow8Facts();
    StringField(name, 100) + OctalField(mode % 512, 8) + OctalField(0, 8) + OctalField(0, 8)
    + OctalField(size, 12) + OctalField(0, 12)
  }

  function Back(typeByte: Byte, prefix: Bytes): (r: Bytes)
    requires |prefix| <= 155
    ensures |r| == 356
  {
    [typeByte] + Zeros(100) + MAGIC + Zeros(80) + StringField(prefix, 155) + Zeros(12)
  }

  function ChecksumField(sum: nat): (r: Bytes)
    requires sum < Pow8(6)
    ensures |r| == 8
  {
    ToOctalWidth(sum, 6);
    PadStart(ToOctal(sum), 6) + [0, 0x20]
  }

  function Layout(name: Bytes, prefix: Bytes, mode: nat, size: nat, typeByte: Byte): (r: Bytes)
    requires |name| <= 100 && |prefix| <= 155 && size < Pow8(11)
    ensures |r| == 512
  {
    Pow8Facts();
    var front, back := Front(name, mode, size), Back(typeByte, prefix);
    front + ChecksumField(Sum(front) + 8 * 0x20 + Sum(back)) + back
  }

  function TypeByte(kind: Kind): Byte {
    if kind == File then 0x30 else 0x35
  }

  function ContentSize(e: Entry): nat {
    if e.kind == File then |e.data| else 0
  }

  function CanonicalHeader(e: Entry): (r: Result<Bytes, TarError>)
    ensures r.Ok? ==> |r.value| == 512
  {
    var split :- SplitPath(e.path);
    SplitPathSound(e.path);
    if ContentSize(e) >= Pow8(11) then Err(ValueTooLarge)
    else Ok(Layout(split.name, split.prefix, e.mode, ContentSize(e), TypeByte(e.kind)))
  }

  // ---- The in-place header writer ----

  ghost function Spliced(s: Bytes, offset: nat, b: Bytes): (r: Bytes)
    requires offset + |b| <= |s|
    ensures |r| == |s|
  {
    s[..offset] + b + s[offset + |b|..]
  }

  method WriteTarString(header: array<Byte>, offset: nat, length: nat, value: Bytes) returns (r: Result<(), TarError>)
    requires offset + length <= header.Length
    modifies header
    ensures r.Ok? <==> |value| <= length
    ensures header[..] == if r.Ok? then Spliced(old(header[..]), offset, value) else old(header[..])
  {
    if |value| > length {
      return Err(ValueTooLarge);
    }
    forall i | 0 <= i < |value| {
      header[offset + i] := value[i];
    }
    assert header[..offset] == old(header[..offset]);
    assert header[offset + |value|..] == old(header[offset + |value|..]);
    forall i | 0 <= i < |value|
      ensures header[offset + i] == value[i]
    {
    }
    assert header[offset..offset + |value|] == value;
    assert header[..] == header[..offset] + header[offset..offset + |value|] + header[offset + |value|..];
    return Ok(());
  }

  method WriteTarOctal(header: array<Byte>, offset: nat, length: nat, value: nat) returns (r: Result<(), TarError>)
    requires length >= 2 && offset + length <= header.Length
    modifies header
    ensures r.Ok? <==> value < Pow8(length - 1)
    ensures header[..] == if r.Ok? then Spliced(old(header[..]), offset, OctalField(value, length)) else old(header[..])
  {
    var encoded := ToOctal(value);
    ToOctalWidth(value, length - 1);
    if |encoded| > length - 1 {
      return Err(ValueTooLarge);
    }
    var digits := PadStart(encoded, length - 1);
    hide ToOctal, PadStart, Pow8;
    var _ := WriteTarString(header, offset, length - 1, digits);
    label Digits:
    header[offset + length - 1] := 0;
    assert header[..] == old@Digits(header[..])[offset + length - 1 := 0];
    SplicedThenNul(old(header[..]), offset, digits);
    return Ok(());
  }

  lemma {:induction false} SplicedThenNul(s: Bytes, offset: nat, digits: Bytes)
    requires offset + |digits| + 1 <= |s|
    ensures Spliced(s, offset, digits)[offset + |digits| := 0] == Spliced(s, offset, digits + [0])
  {
  }

  /** The header buffer holds `done` and is still zero behind it. */
  ghost predicate Written(header: array<Byte>, done: Bytes)
    reads header
  {
    header.Length == 512 && |done| <= 512 && header[..] == done + Zeros(512 - |done|)
  }

  method AppendString(header: array<Byte>, ghost done: Bytes, offset: nat, length: nat, value: Bytes)
    requires Written(header, done) && offset == |done| && offset + length <= 512 && |value| <= length
    modifies header
    ensures Written(header, done + StringField(value, length))
  {
    var _ := WriteTarString(header, offset, length, value);
  }

  method AppendOctal(header: array<Byte>, ghost done: Bytes, offset: nat, length: nat, value: nat)
    requires Written(header, done) && offset == |done| && offset + length <= 512
    requires length >= 2 && value < Pow8(length - 1)
    modifies header
    ensures Written(header, done + OctalField(value, length))
  {
    var _ := WriteTarOctal(header, offset, length, value);
  }

  lemma {:induction false} SkipZeros(header: array<Byte>, done: Bytes, gap: nat)
    requires Written(header, done) && |done| + gap <= 512
    ensures Written(header, done + Zeros(gap))
  {
  }

  /** The first half of the header buffer, written field by field. */
  method WriteFront(header: array<Byte>, name: Bytes, mode: nat, size: nat)
    requires Written(header, [])
    requires |name| <= 100 && size < Pow8(11)
    modifies header
    ensures Written(header, Front(name, mode, size))
  {
    Pow8Facts();
    AppendString(header, [], 0, 100, name);
    ghost var p := StringField(name, 100);
    assert [] + p == p;
    AppendOctal(header, p, 100, 8, mode % 512);
    p := p + OctalField(mode % 512, 8);
    AppendOctal(header, p, 108, 8, 0);
    p := p + OctalField(0, 8);
    AppendOctal(header, p, 116, 8, 0);
    p := p + OctalField(0, 8);
    AppendOctal(header, p, 124, 12, size);
    p := p + OctalField(size, 12);
    AppendOctal(header, p, 136, 12, 0);
  }

  /** The blanked checksum field and the second half. */
  method WriteBack(header: array<Byte>, ghost front: Bytes, typeByte: Byte, prefix: Bytes)
    requires Written(header, front) && |front| == 148 && |prefix| <= 155
    modifies header
    ensures header[..] == front + Fill(8, 0x20) + Back(typeByte, prefix)
  {
    var blank := Fill(8, 0x20);
    AppendString(header, front, 148, 8, blank);
    assert StringField(blank, 8) == blank;
    ghost var p := front + blank;
    AppendString(header, p, 156, 1, [typeByte]);
    assert StringField([typeByte], 1) == [typeByte];
    ghost var b := [typeByte] + Zeros(100);
    SkipZeros(header, p + [typeByte], 100);
    assert p + [typeByte] + Zeros(100) == p + b;
    AppendString(header, p + b, 257, 8, MAGIC);
    assert StringField(MAGIC, 8) == MAGIC;
    SkipZeros(header, p + b + MAGIC, 80);
    assert p + b + MAGIC + Zeros(80) == p + (b + MAGIC + Zeros(80));
    b := b + MAGIC + Zeros(80);
    AppendString(header, p + b, 345, 155, prefix);
    assert p + b + StringField(prefix, 155) + Zeros(12) == p + (b + StringField(prefix, 155) + Zeros(12));
  }

  /** The buffer the source fills in place holds exactly the field-by-field layout. */
  method CanonicalTarHeader(e: Entry) returns (r: Result<Bytes, TarError>)
    ensures r == CanonicalHeader(e)
  {
    hide Front, Back, ChecksumField, Sum, SplitPath;
    Pow8Facts();
    var header := new Byte[512](i => 0);
    assert header[..] == [] + Zeros(512);
    var split := SplitUstarPath(e.path);
    if split.Err? {
      return Err(split.error);
    }
    SplitPathSound(e.path);
    var name, prefix, size, typeByte := split.value.name, split.value.prefix, ContentSize(e), TypeByte(e.kind);
    if size >= Pow8(11) {
      return Err(ValueTooLarge);
    }
    WriteFront(header, name, e.mode, size);
    ghost var front, back := Front(name, e.mode, size), Back(typeByte, prefix);
    WriteBack(header, front, typeByte, prefix);
    var checksum := HeaderSum(header);
    SumAppend(front + Fill(8, 0x20), back);
    SumAppend(front, Fill(8, 0x20));
    SumFill(8, 0x20);
    FillChecksum(header, front, back, checksum);
    return Ok(header[..]);
  }

  method FillChecksum(header: array<Byte>, ghost front: Bytes, ghost back: Bytes, checksum: nat)
    requires header.Length == 512 && |front| == 148 && |back| == 356 && checksum < Pow8(6)
    requires header[..] == front + Fill(8, 0x20) + back
    modifies header
    ensures header[..] == front + ChecksumField(checksum) + back
  {
    ToOctalWidth(checksum, 6);
    var digits := PadStart(ToOctal(checksum), 6);
    var _ := WriteTarString(header, 148, 6, digits);
    assert header[..] == front + digits + [0x20, 0x20] + back;
    header[154], header[155] := 0, 0x20;
    assert header[..] == front + digits + [0, 0x20] + back;
    assert front + digits + [0, 0x20] == front + ChecksumField(checksum);
  }

  method HeaderSum(header: array<Byte>) returns (checksum: nat)
    ensures checksum == Sum(header[..])
  {
    checksum := 0;
    for i := 0 to header.Length
      invariant checksum == Sum(header[..i])
    {
      assert header[..i + 1] == header[..i] + [header[i]];
      SumAppend(header[..i], [header[i]]);
      assert Sum([header[i]]) == header[i];
      var byte: int := header[i];
      checksum := checksum + byte;
    }
    assert header[..header.Length] == header[..];
  }

  // ---- The stream ----

  function WithPayload(header: Bytes, e: Entry): Bytes {
    if e.kind == File then header + e.data + Zeros(Padded(|e.data|) - |e.data|) else header
  }

  function Member(e: Entry): Result<Bytes, TarError> {
    var header :- CanonicalHeader(e);
    Ok(WithPayload(header, e))
  }

  function Members(es: seq<Entry>): Result<Bytes, TarError> {
    if es == [] then Ok([])
    else
      var first :- Member(es[0]);
      var rest :- Members(es[1..]);
      Ok(first + rest)
  }

  function ByteRank(b: Byte): int {
    b
  }

  predicate PathLeq(x: Entry, y: Entry) {
    LexLeq(x.path, y.path, ByteRank)
  }

  function Ordered(es: seq<Entry>): seq<Entry> {
    Sort(es, PathLeq)
  }

  /** The canonical tar stream: members in byte order of path, then two zero blocks. */
  function CanonicalTar(es: seq<Entry>): Result<Bytes, TarError> {
    var body :- Members(Ordered(es));
    Ok(body + Zeros(1024))
  }

  method AddPayload(header: Bytes, entry: Entry) returns (r: Bytes)
    ensures r == WithPayload(header, entry)
  {
    if entry.kind != File {
      return header;
    }
    r := header + entry.data;
    var padding := (512 - |entry.data| % 512) % 512;
    assert Padded(|entry.data|) - |entry.data| == padding;
    if padding > 0 {
      r := r + Zeros(padding);
    }
  }

  ghost function Prepend(done: Bytes, rest: Result<Bytes, TarError>): Result<Bytes, TarError> {
    if rest.Ok? then Ok(done + rest.value) else rest
  }

  lemma {:induction false} PrependNothing(rest: Result<Bytes, TarError>)
    ensures Prepend([], rest) == rest
  {
    if rest.Ok? { assert [] + rest.value == rest.value; }
  }

  /** One iteration of the writing loop. */
  lemma {:induction false} MembersAt(ordered: seq<Entry>, i: nat, done: Bytes, header: Result<Bytes, TarError>)
    requires i < |ordered| && header == CanonicalHeader(ordered[i])
    ensures header.Err? ==> Prepend(done, Members(ordered[i..])) == header
    ensures header.Ok? ==> Prepend(done, Members(ordered[i..]))
                           == Prepend(done + WithPayload(header.value, ordered[i]), Members(ordered[i + 1..]))
  {
    hide CanonicalHeader, WithPayload;
    assert ordered[i..][0] == ordered[i] && ordered[i..][1..] == ordered[i + 1..];
    var rest := Members(ordered[i + 1..]);
    if header.Ok? && rest.Ok? {
      var member := WithPayload(header.value, ordered[i]);
      assert done + (member + rest.value) == done + member + rest.value;
    }
  }

  method WriteMembers(ordered: seq<Entry>) returns (r: Result<Bytes, TarError>)
    ensures r == Members(ordered)
  {
    var output := [];
    assert ordered[0..] == ordered;
    PrependNothing(Members(ordered));
    for i := 0 to |ordered|
      invariant Prepend(output, Members(ordered[i..])) == Members(ordered)
    {
      var header := CanonicalTarHeader(ordered[i]);
      MembersAt(ordered, i, output, header);
      if header.Err? {
        return header;
      }
      var member := AddPayload(header.value, ordered[i]);
      output := output + member;
    }
    assert ordered[|ordered|..] == [] && output + [] == output;
    return Ok(output);
  }

  method CreateCanonicalTarball(entries: seq<Entry>, gzip: Bytes -> Bytes) returns (r: Result<Bytes, TarError>)
    ensures r == var tar := CanonicalTar(entries); if tar.Err? then tar else Ok(gzip(tar.value))
  {
    var body := WriteMembers(Ordered(entries));
    if body.Err? {
      return body;
    }
    return Ok(gzip(body.value + Zeros(1024)));
  }
}
