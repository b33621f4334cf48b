/**
 UTF-8 as section 4 of RFC 3629 defines it, the decoder's leading-BOM rule, and the
 encoding of a string's scalar values.
 */
module Utf8 {
  import opened Bytes
  import opened Wrappers

  predicate Tail(b: Byte) {
    0x80 <= b < 0xC0
  }

  /** Length of the well-formed character at the head of s, or 0 when there is none. */
  function HeadLength(s: Bytes): (n: nat)
    ensures n <= 4 && n <= |s|
  {
    if s == [] then 0
    else if s[0] < 0x80 then 1
    else if 0xC2 <= s[0] < 0xE0 then
      if |s| >= 2 && Tail(s[1]) then 2 else 0
    else if 0xE0 <= s[0] < 0xF0 then
      if && |s| >= 3 && Tail(s[1]) && Tail(s[2])
         && (s[0] == 0xE0 ==> s[1] >= 0xA0) && (s[0] == 0xED ==> s[1] < 0xA0) then 3 else 0
    else if 0xF0 <= s[0] < 0xF5 then
      if && |s| >= 4 && Tail(s[1]) && Tail(s[2]) && Tail(s[3])
         && (s[0] == 0xF0 ==> s[1] >= 0x90) && (s[0] == 0xF4 ==> s[1] < 0x90) then 4 else 0
    else 0
  }

  predicate Valid(s: Bytes) {
    s == [] || (HeadLength(s) > 0 && Valid(s[HeadLength(s)..]))
  }

  lemma {:induction false} HeadLengthLocal(a: Bytes, b: Bytes)
    requires HeadLength(a) > 0
    ensures HeadLength(a + b) == HeadLength(a)
  {
  }

  lemma {:induction false} ValidAppend(a: Bytes, b: Bytes)
    requires Valid(a) && Valid(b)
    ensures Valid(a + b)
  {
    if a == [] {
      assert a + b == b;
    } else {
      var n := HeadLength(a);
      HeadLengthLocal(a, b);
      assert (a + b)[n..] == a[n..] + b;
      ValidAppend(a[n..], b);
    }
  }

  /** Text can be cut on either side of any ASCII byte. */
  lemma {:induction false} ValidAroundAscii(s: Bytes, i: nat)
    requires Valid(s) && i < |s| && s[i] < 0x80
    ensures Valid(s[..i]) && Valid(s[i + 1..])
  {
    var n := HeadLength(s);
    if i == 0 {
      assert n == 1 && s[..0] == [];
    } else {
      assert n <= i;
      var rest := s[n..];
      ValidAroundAscii(rest, i - n);
      assert rest[i - n + 1..] == s[i + 1..];
      var head := s[..i];
      assert head[n..] == rest[..i - n];
      assert HeadLength(head) == n;
    }
  }

  const BOM: Bytes := [0xEF, 0xBB, 0xBF]

  predicate StartsWithBom(s: Bytes) {
    BOM <= s
  }

  /** A fatal decoder: rejects malformed input and drops one leading byte-order mark. */
  function Decode(s: Bytes): (r: Option<Bytes>)
    ensures r.Some? <==> Valid(s)
    ensures r.Some? ==> Valid(r.value)
    ensures r.Some? ==> (r.value == s <==> !StartsWithBom(s))
  {
    if !Valid(s) then None
    else if StartsWithBom(s) then
      assert HeadLength(s) == 3;
      Some(s[3..])
    else Some(s)
  }

  function EncodeChar(c: char): (r: Bytes)
    ensures 1 <= |r| <= 4
  {
    var n := c as int;
    if n < 0x80 then [n]
    else if n < 0x800 then [0xC0 + n / 64, 0x80 + n % 64]
    else if n < 0x1_0000 then [0xE0 + n / 4096, 0x80 + n / 64 % 64, 0x80 + n % 64]
    else [0xF0 + n / 0x4_0000, 0x80 + n / 4096 % 64, 0x80 + n / 64 % 64, 0x80 + n % 64]
  }

  function Encode(s: string): Bytes {
    if s == [] then [] else EncodeChar(s[0]) + Encode(s[1..])
  }

  /** The number of bytes a lead byte announces. */
  function AnnouncedLength(lead: Byte): (n: nat)
    ensures 1 <= n <= 4
  {
    if lead >= 0xF0 then 4 else if lead >= 0xE0 then 3 else if lead >= 0xC0 then 2 else 1
  }

  /** The scalar value spelled by one character's bytes. */
  function Scalar(r: Bytes): int
    requires 1 <= |r| <= 4
  {
    match |r|
    case 1 => r[0]
    case 2 => (r[0] as int - 0xC0) * 64 + (r[1] as int - 0x80)
    case 3 => (r[0] as int - 0xE0) * 4096 + (r[1] as int - 0x80) * 64 + (r[2] as int - 0x80)
    case _ => (r[0] as int - 0xF0) * 0x4_0000 + (r[1] as int - 0x80) * 4096 + (r[2] as int - 0x80) * 64 + (r[3] as int - 0x80)
  }

  lemma {:induction false} EncodeCharScalar(c: char)
    ensures Scalar(EncodeChar(c)) == c as int
    ensures AnnouncedLength(EncodeChar(c)[0]) == |EncodeChar(c)|
  {
    var n := c as int;
    assert n / 4096 == n / 64 / 64;
    assert n / 0x4_0000 == n / 4096 / 64;
  }

  lemma {:induction false} EncodeCharDistinct(c: char, d: char, a: Bytes, b: Bytes)
    requires EncodeChar(c) + a == EncodeChar(d) + b
    ensures c == d && a == b
  {
    var x, y := EncodeChar(c), EncodeChar(d);
    EncodeCharScalar(c);
    EncodeCharScalar(d);
    assert (x + a)[0] == x[0] && (y + b)[0] == y[0];
    assert (x + a)[..|x|] == x && (y + b)[..|y|] == y;
    assert (x + a)[|x|..] == a && (y + b)[|y|..] == b;
  }

  lemma {:induction false} EncodeInjective(s: string, t: string)
    requires Encode(s) == Encode(t)
    ensures s == t
  {
    if s != [] && t != [] {
      EncodeCharDistinct(s[0], t[0], Encode(s[1..]), Encode(t[1..]));
      EncodeInjective(s[1..], t[1..]);
      assert s == [s[0]] + s[1..] && t == [t[0]] + t[1..];
    }
  }

  // ---- Well-formed bytes are exactly the encodings ----

  lemma {:induction false} EncodeCharIsWhole(c: char)
    ensures HeadLength(EncodeChar(c)) == |EncodeChar(c)|
  {
    var n := c as int;
    assert n / 4096 == n / 64 / 64;
    assert n / 0x4_0000 == n / 4096 / 64;
  }

  lemma {:induction false} Shift(x: int, y: int)
    requires 0 <= x && 0 <= y < 64
    ensures (64 * x + y) / 64 == x && (64 * x + y) % 64 == y
  {
  }

  lemma {:induction false} TwoBytes(x: int, y: int)
    requires 0xC2 <= x < 0xE0 && 0x80 <= y < 0xC0
    ensures var v := 64 * (x - 0xC0) + (y - 0x80);
            && 0x80 <= v < 0x800 && EncodeChar(v as char) == [x, y]
  {
    Shift(x - 0xC0, y - 0x80);
  }

  lemma {:induction false} ThreeBytes(x: int, y: int, z: int)
    requires 0xE0 <= x < 0xF0 && 0x80 <= y < 0xC0 && 0x80 <= z < 0xC0 && (x == 0xE0 ==> y >= 0xA0) && (x == 0xED ==> y < 0xA0)
    ensures var v := 64 * (64 * (x - 0xE0) + (y - 0x80)) + (z - 0x80);
            && (0x800 <= v < 0xD800 || 0xE000 <= v < 0x1_0000) && EncodeChar(v as char) == [x, y, z]
  {
    var high := 64 * (x - 0xE0) + (y - 0x80);
    var v := 64 * high + (z - 0x80);
    Shift(x - 0xE0, y - 0x80);
    Shift(high, z - 0x80);
    assert v / 4096 == v / 64 / 64;
  }

  lemma {:induction false} FourBytes(x: int, y: int, z: int, u: int)
    requires 0xF0 <= x < 0xF5 && 0x80 <= y < 0xC0 && 0x80 <= z < 0xC0 && 0x80 <= u < 0xC0
    requires (x == 0xF0 ==> y >= 0x90) && (x == 0xF4 ==> y < 0x90)
    ensures var v := 64 * (64 * (64 * (x - 0xF0) + (y - 0x80)) + (z - 0x80)) + (u - 0x80);
            && 0x1_0000 <= v < 0x11_0000 && EncodeChar(v as char) == [x, y, z, u]
  {
    var top := 64 * (x - 0xF0) + (y - 0x80);
    var high := 64 * top + (z - 0x80);
    var v := 64 * high + (u - 0x80);
    Shift(x - 0xF0, y - 0x80);
    Shift(top, z - 0x80);
    Shift(high, u - 0x80);
    assert v / 4096 == v / 64 / 64 && v / 0x4_0000 == v / 4096 / 64;
  }

  /** The first character of well-formed bytes is the encoding of a scalar value. */
  lemma {:induction false} HeadIsEncoded(b: Bytes) returns (c: char)
    requires HeadLength(b) > 0
    ensures EncodeChar(c) == b[..HeadLength(b)]
  {
    var n := HeadLength(b);
    var x: int := b[0];
    if n == 1 {
      c := x as char;
      assert EncodeChar(c) == [b[0]] == b[..1];
      return;
    }
    hide EncodeChar;
    var y: int := b[1];
    if n == 2 {
      TwoBytes(x, y);
      c := (64 * (x - 0xC0) + (y - 0x80)) as char;
      return;
    }
    var z: int := b[2];
    if n == 3 {
      ThreeBytes(x, y, z);
      c := (64 * (64 * (x - 0xE0) + (y - 0x80)) + (z - 0x80)) as char;
    } else {
      var u: int := b[3];
      FourBytes(x, y, z, u);
      c := (64 * (64 * (64 * (x - 0xF0) + (y - 0x80)) + (z - 0x80)) + (u - 0x80)) as char;
    }
  }

  /** Bytes are well formed exactly when they encode some string of scalar values. */
  lemma {:induction false} ValidIff(b: Bytes)
    ensures Valid(b) <==> exists s :: Encode(s) == b
  {
    hide EncodeChar, HeadLength;
    if Valid(b) { var s := Decoded(b); }
    if s :| Encode(s) == b { EncodedIsValid(s); }
  }

  lemma {:induction false} Decoded(b: Bytes) returns (s: string)
    requires Valid(b)
    ensures Encode(s) == b
  {
    hide EncodeChar, HeadLength;
    if b == [] {
      s := "";
    } else {
      var n := HeadLength(b);
      var c := HeadIsEncoded(b);
      var rest := Decoded(b[n..]);
      s := [c] + rest;
      assert s[0] == c && s[1..] == rest;
      assert b == b[..n] + b[n..];
    }
  }

  lemma {:induction false} EncodedIsValid(s: string)
    ensures Valid(Encode(s))
  {
    if s != "" {
      var c := EncodeChar(s[0]);
      EncodeCharIsWhole(s[0]);
      EncodedIsValid(s[1..]);
      HeadLengthLocal(c, Encode(s[1..]));
      hide EncodeChar, HeadLength;
      assert (c + Encode(s[1..]))[|c|..] == Encode(s[1..]);
    }
  }
}
