/** Scalar fields of a ustar header: octal numbers, NUL-bounded strings and the self-blanking checksum. */
module TarFields {
  import opened Bytes
  import opened Text
  import opened Utf8
  import opened Wrappers

  datatype TarError =
    | BadLimits | CompressedTooLarge | NotGzip | UnpackedTooLarge
    | NotOctal | NotUtf8 | ChecksumMismatch | EntryTooLarge | TruncatedMember
    | PaxNoSeparator | PaxBadLength | PaxTruncated | PaxNotTerminated | PaxNoKey | GlobalPaxPath
    | UnsafePath | UnsafeMode | UnsupportedType | DirectoryWithData | DuplicateMember
    | TooManyFiles | FileDataTooLarge
    | DanglingPathExtension | MissingSecondZeroBlock | DataAfterTerminator | MissingTerminator
    | PathTooLong | ValueTooLarge

  // ---- Octal numbers ----

  predicate OctalDigit(b: Byte) {
    0x30 <= b < 0x38
  }

  predicate OctalDigits(s: Bytes) {
    forall i | 0 <= i < |s| :: OctalDigit(s[i])
  }

  function OctalValue(s: Bytes): nat
    requires OctalDigits(s)
  {
    if s == [] then 0 else 8 * OctalValue(s[..|s| - 1]) + (s[|s| - 1] - 0x30)
  }

  /** Number.prototype.toString(8). */
  function ToOctal(n: nat): (s: Bytes)
    ensures s != [] && OctalDigits(s)
  {
    if n < 8 then [n + 0x30] else ToOctal(n / 8) + [n % 8 + 0x30]
  }

  function PadStart(s: Bytes, width: nat): (r: Bytes)
    ensures |s| <= width ==> |r| == width
    ensures OctalDigits(s) ==> OctalDigits(r)
  {
    if |s| >= width then s else Fill(width - |s|, 0x30) + s
  }

  lemma {:induction false} ToOctalValue(n: nat)
    ensures OctalValue(ToOctal(n)) == n
  {
    if n < 8 {
      assert OctalValue([]) == 0;
    } else {
      ToOctalValue(n / 8);
      assert ToOctal(n)[..|ToOctal(n)| - 1] == ToOctal(n / 8);
    }
  }

  lemma {:induction false} LeadingZeros(k: nat, s: Bytes)
    requires OctalDigits(s)
    ensures OctalDigits(Fill(k, 0x30) + s) && OctalValue(Fill(k, 0x30) + s) == OctalValue(s)
  {
    var t := Fill(k, 0x30) + s;
    if s != [] {
      LeadingZeros(k, s[..|s| - 1]);
      assert t[..|t| - 1] == Fill(k, 0x30) + s[..|s| - 1];
    } else if k > 0 {
      LeadingZeros(k - 1, s);
      assert t[..|t| - 1] == Fill(k - 1, 0x30) + s;
    }
  }

  function Pow8(w: nat): (p: nat)
    ensures p > 0
  {
    if w == 0 then 1 else 8 * Pow8(w - 1)
  }

  /** A number needs at most w octal digits exactly when it is below 8^w. */
  lemma {:induction false} ToOctalWidth(n: nat, w: nat)
    requires w > 0
    ensures |ToOctal(n)| <= w <==> n < Pow8(w)
  {
    if w == 1 {
      assert Pow8(1) == 8 * Pow8(0) == 8;
    } else if n >= 8 {
      ToOctalWidth(n / 8, w - 1);
    }
  }

  /** Number of trailing bytes that are NUL or space. */
  function BlankTail(s: Bytes): (n: nat)
    ensures n <= |s|
  {
    if s == [] || (s[|s| - 1] != 0 && s[|s| - 1] != 0x20) then 0 else 1 + BlankTail(s[..|s| - 1])
  }

  predicate AsciiSpace(b: Byte) {
    0x09 <= b <= 0x0D || b == 0x20
  }

  function TrimSpace(s: Bytes): Bytes {
    if s == [] then []
    else if AsciiSpace(s[0]) then TrimSpace(s[1..])
    else if AsciiSpace(s[|s| - 1]) then TrimSpace(s[..|s| - 1])
    else s
  }

  /** Buffer#toString("ascii") drops the top bit of every byte. */
  function Ascii(s: Bytes): (r: Bytes)
    ensures |r| == |s| && forall i | 0 <= i < |s| :: r[i] == s[i] % 128
  {
    seq(|s|, i requires 0 <= i < |s| => s[i] % 128)
  }

  function ParseOctal(field: Bytes): Result<nat, TarError> {
    var text := Ascii(field);
    var raw := TrimSpace(text[..|text| - BlankTail(text)]);
    if !OctalDigits(raw) then Err(NotOctal) else Ok(OctalValue(raw))
  }

  lemma {:induction false} BlankTailOf(digits: Bytes, blanks: Bytes)
    requires OctalDigits(digits) && digits != []
    requires forall i | 0 <= i < |blanks| :: blanks[i] == 0 || blanks[i] == 0x20
    ensures BlankTail(digits + blanks) == |blanks|
  {
    var s := digits + blanks;
    if blanks == [] {
      assert s == digits;
    } else {
      assert s[..|s| - 1] == digits + blanks[..|blanks| - 1];
      BlankTailOf(digits, blanks[..|blanks| - 1]);
    }
  }

  /** Digits followed by NULs or spaces read back as the number they spell. */
  lemma {:induction false} ParseOctalDigits(digits: Bytes, blanks: Bytes)
    requires OctalDigits(digits) && digits != []
    requires forall i | 0 <= i < |blanks| :: blanks[i] == 0 || blanks[i] == 0x20
    ensures ParseOctal(digits + blanks) == Ok(OctalValue(digits))
  {
    var field := digits + blanks;
    assert Ascii(field) == field;
    BlankTailOf(digits, blanks);
    assert field[..|digits|] == digits;
    assert TrimSpace(digits) == digits;
  }

  /** The canonical form of an octal field: zero-padded digits and one NUL. */
  function OctalField(n: nat, length: nat): (r: Bytes)
    requires length >= 2 && n < Pow8(length - 1)
    ensures |r| == length
  {
    ToOctalWidth(n, length - 1);
    PadStart(ToOctal(n), length - 1) + [0]
  }

  lemma {:induction false} PaddedValue(n: nat, width: nat)
    ensures OctalValue(PadStart(ToOctal(n), width)) == n
  {
    ToOctalValue(n);
    if |ToOctal(n)| < width { LeadingZeros(width - |ToOctal(n)|, ToOctal(n)); }
  }

  /** Reading a written octal field returns the number. */
  lemma {:induction false} OctalFieldReads(n: nat, length: nat)
    requires length >= 2 && n < Pow8(length - 1)
    ensures ParseOctal(OctalField(n, length)) == Ok(n)
  {
    PaddedValue(n, length - 1);
    ToOctalWidth(n, length - 1);
    ParseOctalDigits(PadStart(ToOctal(n), length - 1), [0]);
  }

  // ---- Strings ----

  function ReadString(field: Bytes): (r: Result<Bytes, TarError>)
    ensures r.Ok? ==> Valid(r.value)
  {
    match Decode(field[..IndexOf(field, 0)])
    case None => Err(NotUtf8)
    case Some(text) => Ok(text)
  }

  /** A string field: the text, NUL-filled to its width. */
  function StringField(text: Bytes, width: nat): (r: Bytes)
    requires |text| <= width
    ensures |r| == width
  {
    text + Zeros(width - |text|)
  }

  lemma {:induction false} StringFieldReads(text: Bytes, width: nat)
    requires |text| <= width && 0 !in text && Valid(text)
    ensures ReadString(StringField(text, width)) == Ok(Decode(text).value)
  {
    var field := StringField(text, width);
    var z := IndexOf(field, 0);
    assert forall i | 0 <= i < |text| :: field[i] == text[i];
    if |text| < width { assert field[|text|] == 0; }
    assert z == |text|;
    assert field[..z] == text;
  }

  // ---- Checksum ----

  /** Sum of the header with the checksum field read as eight spaces. */
  function Checksum(header: Bytes): nat
    requires |header| == 512
  {
    Sum(header[..148]) + 8 * 0x20 + Sum(header[156..])
  }

  predicate ChecksumHolds(header: Bytes)
    requires |header| == 512
  {
    ParseOctal(header[148..156]) == Ok(Checksum(header))
  }
}
