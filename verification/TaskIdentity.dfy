/** Task identities: three fields, the last two in unpadded base64url, joined by colons. */
module TaskIdentity {
  import opened Bytes
  import opened Text
  import Utf8

  /** Letters, digits and the marks between them: nothing that trimming would drop. */
  predicate Graphic(s: string) {
    forall i | 0 <= i < |s| :: '-' <= s[i] <= 'z'
  }

  /** The base64url alphabet of section 5 of RFC 4648. */
  function Digit(i: nat): (c: char)
    requires i < 64
    ensures c != ':' && '-' <= c <= 'z'
  {
    if i < 26 then ('A' as int + i) as char
    else if i < 52 then ('a' as int + i - 26) as char
    else if i < 62 then ('0' as int + i - 52) as char
    else if i == 62 then '-' else '_'
  }

  /** The standard alphabet, as it is written down. */
  const ALPHABET: string := "ABCDEFGHIJKLMNOPQRSTUVWXYZ" + "abcdefghijklmnopqrstuvwxyz" + "0123456789" + "-_"

  lemma {:induction false} DigitIs(i: nat)
    requires i < 64
    ensures |ALPHABET| == 64 && Digit(i) == ALPHABET[i]
  {
    var upper, lower, digits := "ABCDEFGHIJKLMNOPQRSTUVWXYZ", "abcdefghijklmnopqrstuvwxyz", "0123456789";
    assert ALPHABET == upper + lower + digits + "-_" && |upper| == |lower| == 26 && |digits| == 10;
    if i < 26 { assert ALPHABET[i] == upper[i]; }
    else if i < 52 { assert ALPHABET[i] == lower[i - 26]; }
    else if i < 62 { assert ALPHABET[i] == digits[i - 52]; }
  }

  /** Four digits of a group spell the 24 bits of its three bytes. */
  lemma {:induction false} GroupSpells(x: Byte, y: Byte, z: Byte, a: nat, b: nat, c: nat, d: nat)
    requires a < 64 && b < 64 && c < 64 && d < 64 && Group(x, y, z) == [Digit(a), Digit(b), Digit(c), Digit(d)]
    ensures 0x4_0000 * a + 0x1000 * b + 0x40 * c + d == 0x1_0000 * x + 0x100 * y + z
  {
    var g := Group(x, y, z);
    assert g[0] == Digit(a) && g[1] == Digit(b) && g[2] == Digit(c) && g[3] == Digit(d);
    DigitIsInjective(x / 4, a);
    DigitIsInjective(x % 4 * 16 + y / 16, b);
    DigitIsInjective(y % 16 * 4 + z / 64, c);
    DigitIsInjective(z % 64, d);
    hide Digit, Group;
    assert x == 4 * (x / 4) + x % 4 && y == 16 * (y / 16) + y % 16 && z == 64 * (z / 64) + z % 64;
  }

  lemma {:induction false} DigitIsInjective(i: nat, j: nat)
    requires i < 64 && j < 64 && Digit(i) == Digit(j)
    ensures i == j
  {
  }

  /** The first, middle and last digits of a group; a missing byte counts as zero. */
  function Group(x: Byte, y: Byte, z: Byte): (s: string)
    ensures |s| == 4 && ':' !in s && Graphic(s)
  {
    [Digit(x / 4), Digit(x % 4 * 16 + y / 16), Digit(y % 16 * 4 + z / 64), Digit(z % 64)]
  }

  /** Two neighbouring digits determine a byte and the high part of the next. */
  lemma {:induction false} SharedDigit(x: nat, y: nat, x': nat, y': nat, q: nat, r: nat)
    requires ((q == 4 && r == 16) || (q == 16 && r == 4)) && y < r && y' < r
    requires x / q == x' / q && x % q * r + y == x' % q * r + y'
    ensures x == x' && y == y'
  {
    if q == 4 {
      assert x == 4 * (x / 4) + x % 4 && x' == 4 * (x' / 4) + x' % 4;
    } else {
      assert x == 16 * (x / 16) + x % 16 && x' == 16 * (x' / 16) + x' % 16;
    }
  }

  lemma {:induction false} FirstTwo(x: Byte, y: Byte, z: Byte, x': Byte, y': Byte, z': Byte)
    requires Group(x, y, z)[0] == Group(x', y', z')[0] && Group(x, y, z)[1] == Group(x', y', z')[1]
    ensures x == x' && y / 16 == y' / 16
  {
    DigitIsInjective(x / 4, x' / 4);
    DigitIsInjective(x % 4 * 16 + y / 16, x' % 4 * 16 + y' / 16);
    SharedDigit(x, y / 16, x', y' / 16, 4, 16);
  }

  lemma {:induction false} FirstThree(x: Byte, y: Byte, z: Byte, x': Byte, y': Byte, z': Byte)
    requires Group(x, y, z)[..3] == Group(x', y', z')[..3]
    ensures x == x' && y == y' && z / 64 == z' / 64
  {
    var g, h := Group(x, y, z), Group(x', y', z');
    assert g[..3][0] == g[0] && g[..3][1] == g[1] && g[..3][2] == g[2];
    assert h[..3][0] == h[0] && h[..3][1] == h[1] && h[..3][2] == h[2];
    FirstTwo(x, y, z, x', y', z');
    DigitIsInjective(y % 16 * 4 + z / 64, y' % 16 * 4 + z' / 64);
    SharedDigit(y, z / 64, y', z' / 64, 16, 4);
  }

  lemma {:induction false} GroupIsInjective(x: Byte, y: Byte, z: Byte, x': Byte, y': Byte, z': Byte)
    requires Group(x, y, z) == Group(x', y', z')
    ensures x == x' && y == y' && z == z'
  {
    FirstThree(x, y, z, x', y', z');
    assert Group(x, y, z)[3] == Group(x', y', z')[3];
    DigitIsInjective(z % 64, z' % 64);
  }

  /** Unpadded: the last group may have only two or three digits. */
  function Base64Url(b: Bytes): (s: string)
    ensures ':' !in s && |s| == (4 * |b| + 2) / 3 && Graphic(s)
  {
    if b == [] then ""
    else if |b| == 1 then Group(b[0], 0, 0)[..2]
    else if |b| == 2 then Group(b[0], b[1], 0)[..3]
    else Group(b[0], b[1], b[2]) + Base64Url(b[3..])
  }

  lemma {:induction false} ShortIsInjective(a: Bytes, b: Bytes)
    requires |a| == |b| < 3 && Base64Url(a) == Base64Url(b)
    ensures a == b
  {
    if |a| == 1 {
      var g, h := Group(a[0], 0, 0), Group(b[0], 0, 0);
      assert g[..2][0] == g[0] && g[..2][1] == g[1] && h[..2][0] == h[0] && h[..2][1] == h[1];
      FirstTwo(a[0], 0, 0, b[0], 0, 0);
    } else if |a| == 2 {
      FirstThree(a[0], a[1], 0, b[0], b[1], 0);
    }
  }

  lemma {:induction false} Base64UrlIsInjective(a: Bytes, b: Bytes)
    requires Base64Url(a) == Base64Url(b)
    ensures a == b
  {
    assert |a| == |b|;
    if |a| < 3 {
      ShortIsInjective(a, b);
    } else {
      var g, h := Group(a[0], a[1], a[2]), Group(b[0], b[1], b[2]);
      assert g == Base64Url(a)[..4] == Base64Url(b)[..4] == h;
      assert Base64Url(a[3..]) == Base64Url(a)[4..] == Base64Url(b)[4..] == Base64Url(b[3..]);
      GroupIsInjective(a[0], a[1], a[2], b[0], b[1], b[2]);
      Base64UrlIsInjective(a[3..], b[3..]);
      assert a == [a[0], a[1], a[2]] + a[3..] && b == [b[0], b[1], b[2]] + b[3..];
    }
  }

  function Field(s: string): (r: string)
    ensures ':' !in r && Graphic(r)
  {
    Base64Url(Utf8.Encode(s))
  }

  /** stableIdentity. */
  function Stable(domain: string, id: string, location: string): string {
    domain + ":" + Field(id) + ":" + Field(location)
  }

  /** Identities agree only when all three fields do. */
  lemma {:induction false} StableIsInjective(domain: string, id: string, location: string, domain': string, id': string, location': string)
    requires ':' !in domain && ':' !in domain' && Stable(domain, id, location) == Stable(domain', id', location')
    ensures domain == domain' && id == id' && location == location'
  {
    Fields(domain, id, location);
    Fields(domain', id', location');
    Base64UrlIsInjective(Utf8.Encode(id), Utf8.Encode(id'));
    Base64UrlIsInjective(Utf8.Encode(location), Utf8.Encode(location'));
    Utf8.EncodeInjective(id, id');
    Utf8.EncodeInjective(location, location');
  }

  lemma {:induction false} Fields(domain: string, id: string, location: string)
    requires ':' !in domain
    ensures Split(Stable(domain, id, location), ':') == [domain, Field(id), Field(location)]
  {
    var rest := Field(id) + [':'] + Field(location);
    assert Stable(domain, id, location) == domain + [':'] + rest;
    SplitAppend(domain, rest, ':');
    SplitAppend(Field(id), Field(location), ':');
    SplitAppend(Field(location), "", ':');
  }
}
