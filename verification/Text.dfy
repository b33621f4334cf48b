/** Splitting on a separator and joining back, for lines, path segments and dotted versions. */
module Text {

  /** Position of the first x, or |s| when there is none. */
  function IndexOf<T(==)>(s: seq<T>, x: T): (r: nat)
    ensures r <= |s| && (forall i | 0 <= i < r :: s[i] != x)
    ensures r < |s| ==> s[r] == x
    ensures x in s <==> r < |s|
  {
    if s == [] || s[0] == x then 0 else 1 + IndexOf(s[1..], x)
  }

  /** The first separator cuts a sequence into what precedes and what follows it. */
  lemma {:induction false} IndexOfFirst<T>(s: seq<T>, a: seq<T>, x: T, b: seq<T>)
    requires x !in a && s == a + [x] + b
    ensures IndexOf(s, x) == |a| < |s| && s[..|a|] == a && s[|a| + 1..] == b
  {
    assert s[|a|] == x;
    assert forall i | 0 <= i < |a| :: s[i] == a[i];
  }

  lemma {:induction false} ShiftHead<T>(a: seq<T>, b: seq<T>)
    requires b != []
    ensures a + [b[0]] + b[1..] == a + b
  {
  }

  /** Pieces between separators; always at least one, none containing the separator. */
  function Split<T(==)>(s: seq<T>, sep: T): (parts: seq<seq<T>>)
    ensures parts != []
    ensures forall p | p in parts :: sep !in p
  {
    if s == [] then [[]]
    else
      var rest := Split(s[1..], sep);
      if s[0] == sep then [[]] + rest
      else [[s[0]] + rest[0]] + rest[1..]
  }

  function Join<T>(parts: seq<seq<T>>, sep: T): seq<T>
  {
    if parts == [] then []
    else if |parts| == 1 then parts[0]
    else parts[0] + [sep] + Join(parts[1..], sep)
  }

  lemma {:induction false} JoinSplit<T>(s: seq<T>, sep: T)
    ensures Join(Split(s, sep), sep) == s
  {
    if s != [] {
      JoinSplit(s[1..], sep);
      var rest := Split(s[1..], sep);
      assert s == [s[0]] + s[1..];
      if s[0] == sep {
        assert ([[]] + rest)[1..] == rest;
      } else {
        assert ([[s[0]] + rest[0]] + rest[1..])[1..] == rest[1..];
      }
    }
  }

  /** Splitting after a separator-free head keeps the head whole. */
  lemma {:induction false} SplitAppend<T>(a: seq<T>, b: seq<T>, sep: T)
    requires sep !in a
    ensures Split(a + [sep] + b, sep) == [a] + Split(b, sep)
    ensures Split(a, sep) == [a]
  {
    if a == [] {
      assert a + [sep] + b == [sep] + b;
    } else {
      SplitAppend(a[1..], b, sep);
      assert (a + [sep] + b)[1..] == a[1..] + [sep] + b;
      assert a == [a[0]] + a[1..];
    }
  }

  lemma {:induction false} SplitJoin<T>(parts: seq<seq<T>>, sep: T)
    requires parts != [] && forall p | p in parts :: sep !in p
    ensures Split(Join(parts, sep), sep) == parts
  {
    if |parts| == 1 {
      SplitAppend(parts[0], [], sep);
    } else {
      SplitJoin(parts[1..], sep);
      SplitAppend(parts[0], Join(parts[1..], sep), sep);
      assert parts == [parts[0]] + parts[1..];
    }
  }

  // Character sets as they are written down.

  const LETTERS: string := "ABCDEFGHIJKLMNOPQRSTUVWXYZ" + "abcdefghijklmnopqrstuvwxyz"
  const DIGITS: string := "0123456789"
  const HEX: string := "0123456789" + "abcdef"

  lemma {:induction false} InRange(c: char, chars: string, first: char)
    requires forall i | 0 <= i < |chars| :: chars[i] as int == first as int + i
    ensures c in chars <==> first as int <= c as int < first as int + |chars|
  {
    if first as int <= c as int < first as int + |chars| { assert chars[c as int - first as int] == c; }
  }

  lemma {:induction false} LettersAre(c: char)
    ensures c in LETTERS <==> 'A' <= c <= 'Z' || 'a' <= c <= 'z'
  {
    InRange(c, "ABCDEFGHIJKLMNOPQRSTUVWXYZ", 'A');
    InRange(c, "abcdefghijklmnopqrstuvwxyz", 'a');
    assert c in LETTERS <==> c in "ABCDEFGHIJKLMNOPQRSTUVWXYZ" || c in "abcdefghijklmnopqrstuvwxyz";
  }

  lemma {:induction false} DigitsAre(c: char)
    ensures c in DIGITS <==> '0' <= c <= '9'
  {
    InRange(c, DIGITS, '0');
  }

  lemma {:induction false} HexAre(c: char)
    ensures c in HEX <==> '0' <= c <= '9' || 'a' <= c <= 'f'
  {
    InRange(c, "0123456789", '0');
    InRange(c, "abcdef", 'a');
    assert c in HEX <==> c in "0123456789" || c in "abcdef";
  }

  /** UTF-16 order of code points: those above the basic plane sort before U+E000. */
  function UnitRank(c: char): int {
    if '\U{E000}' <= c <= '\U{FFFF}' then c as int + 0x110000 else c as int
  }
}
