/** Text/binary classification over a bounded window: scripts/rebrand-inventory.ts. */
module TextSniff {
  import opened Bytes
  import opened Utf8

  const SNIFF_BYTES := 8000

  /** How many bytes the backward walk from distance `back` decides to drop. */
  function DroppedFrom(window: Bytes, back: nat): (n: nat)
    requires back >= 1
    ensures n <= 3 && n <= |window|
    decreases 4 - back
  {
    if back > 3 || back > |window| then 0
    else
      var byte := window[|window| - back];
      if Tail(byte) then DroppedFrom(window, back + 1)
      else if AnnouncedLength(byte) > back then back
      else 0
  }

  function Trimmed(window: Bytes): (r: Bytes)
    ensures r <= window && |window| - 3 <= |r|
  {
    window[..|window| - DroppedFrom(window, 1)]
  }

  method TrimSplitUtf8Sequence(window: Bytes, truncated: bool) returns (r: Bytes)
    ensures r == if truncated then Trimmed(window) else window
  {
    if !truncated {
      return window;
    }
    var back := 1;
    while back <= 3 && back <= |window|
      invariant 1 <= back <= 4
      invariant DroppedFrom(window, back) == DroppedFrom(window, 1)
    {
      var byte := window[|window| - back];
      if !Tail(byte) {
        return if AnnouncedLength(byte) > back then window[..|window| - back] else window;
      }
      back := back + 1;
    }
    return window;
  }

  /** Completing a character in front of a window does not change what is dropped. */
  lemma {:induction false} DroppedAfterCharacter(c: Bytes, w: Bytes, back: nat)
    requires HeadLength(c) == |c| > 0
    requires w == [] || !Tail(w[0])
    requires 1 <= back && forall j | 0 <= |w| - back < j < |w| :: Tail(w[j])
    requires w != [] ==> back <= |w|
    requires w == [] ==> back == 1
    ensures DroppedFrom(c + w, back) == DroppedFrom(w, back)
    decreases 4 - back
  {
    if w == [] {
      assert c + w == c;
    } else if back <= 3 {
      assert (c + w)[|c + w| - back] == w[|w| - back];
      if Tail(w[|w| - back]) { DroppedAfterCharacter(c, w, back + 1); }
    }
  }

  /** A proper non-empty prefix of one character is dropped whole. */
  lemma {:induction false} DroppedWithinCharacter(c: Bytes, n: nat, back: nat)
    requires HeadLength(c) == |c| && 0 < n < |c| && 1 <= back <= n
    ensures DroppedFrom(c[..n], back) == n
    decreases n - back
  {
    if back < n { DroppedWithinCharacter(c, n, back + 1); }
  }

  /** Valid text splits into its first character and the valid rest. */
  lemma {:induction false} FirstCharacter(text: Bytes) returns (c: Bytes, rest: Bytes)
    requires Valid(text) && text != []
    ensures text == c + rest && HeadLength(c) == |c| > 0
    ensures Valid(c) && Valid(rest) && (rest != [] ==> !Tail(rest[0]))
  {
    var n := HeadLength(text);
    c, rest := text[..n], text[n..];
    assert HeadLength(c) == n && c[n..] == [];
  }

  lemma {:induction false} TrimmedAfterCharacter(c: Bytes, w: Bytes)
    requires HeadLength(c) == |c| > 0 && Valid(c)
    requires w == [] || !Tail(w[0])
    requires Valid(Trimmed(w))
    ensures Valid(Trimmed(c + w))
  {
    DroppedAfterCharacter(c, w, 1);
    assert Trimmed(c + w) == c + Trimmed(w);
    ValidAppend(c, Trimmed(w));
  }

  lemma {:induction false} TrimmedWithinCharacter(c: Bytes, n: nat)
    requires HeadLength(c) == |c| && n < |c|
    ensures Trimmed(c[..n]) == []
  {
    if n > 0 { DroppedWithinCharacter(c, n, 1); }
  }

  lemma {:induction false} EmptyIsValid()
    ensures Valid([])
  {
  }

  /** Cutting valid text anywhere and trimming leaves valid text, at most three bytes shorter. */
  lemma {:induction false} TrimmedCutIsValid(text: Bytes, cut: nat)
    requires Valid(text) && cut <= |text|
    ensures Valid(Trimmed(text[..cut]))
    ensures Trimmed(text[..cut]) <= text && cut - 3 <= |Trimmed(text[..cut])|
    decreases |text|
  {
    EmptyIsValid();
    hide Valid, Trimmed, HeadLength, Tail;
    if text != [] {
      var c, rest := FirstCharacter(text);
      if cut < |c| {
        assert text[..cut] == c[..cut];
        TrimmedWithinCharacter(c, cut);
      } else {
        var w := rest[..cut - |c|];
        TrimmedCutIsValid(rest, cut - |c|);
        TrimmedAfterCharacter(c, w);
        assert text[..cut] == c + w;
      }
    }
  }

  predicate Printable(b: Byte) {
    b >= 0x20 || b == 0x09 || b == 0x0A || b == 0x0C || b == 0x0D
  }

  function NonText(w: Bytes): (n: nat)
    ensures n <= |w|
  {
    if w == [] then 0
    else (if !Printable(w[|w| - 1]) || w[|w| - 1] == 0x7F then 1 else 0) + NonText(w[..|w| - 1])
  }

  /** Control bytes other than tab, line feed, form feed and carriage return, and the delete byte. */
  ghost function Odd(w: Bytes): set<int> {
    set i | 0 <= i < |w| && ((w[i] < 0x20 && w[i] !in [0x09, 0x0A, 0x0C, 0x0D]) || w[i] == 0x7F)
  }

  /** The loop counts exactly those positions. */
  lemma {:induction false} NonTextCounts(w: Bytes)
    ensures NonText(w) == |Odd(w)|
  {
    if w != [] {
      var n := |w| - 1;
      NonTextCounts(w[..n]);
      assert Odd(w) == Odd(w[..n]) + if !Printable(w[n]) || w[n] == 0x7F then {n} else {};
    }
  }

  /** The window is the whole input up to 8000 bytes, and otherwise its front up to a character boundary. */
  lemma {:induction false} WindowIs(bytes: Bytes)
    ensures |bytes| <= 8000 ==> Window(bytes) == bytes
    ensures |bytes| > 8000 ==> Window(bytes) <= bytes[..8000] && |Window(bytes)| >= 7997
  {
  }

  function Window(bytes: Bytes): Bytes {
    if |bytes| > SNIFF_BYTES then Trimmed(bytes[..SNIFF_BYTES]) else bytes
  }

  /** The verdict the decode check plays no part in. */
  predicate ControlHeavy(w: Bytes) {
    0 in w || 10 * NonText(w) > 3 * |w|
  }

  method IsBinary(bytes: Bytes) returns (r: bool)
    ensures bytes == [] ==> !r
    ensures bytes != [] ==> (r <==> ControlHeavy(Window(bytes)) || !Valid(Window(bytes)))
    ensures Valid(bytes) ==> (r <==> bytes != [] && ControlHeavy(Window(bytes)))
    // A NUL, or more than three control bytes in ten.
    ensures Valid(bytes) && 0 < |bytes| <= 8000 ==> (r <==> 0 in bytes || 10 * |Odd(bytes)| > 3 * |bytes|)
  {
    NonTextCounts(bytes);
    hide Valid, Trimmed, Printable;
    if bytes == [] {
      return false;
    }
    var truncated := |bytes| > SNIFF_BYTES;
    var window := TrimSplitUtf8Sequence(if truncated then bytes[..SNIFF_BYTES] else bytes, truncated);
    if Valid(bytes) && truncated { TrimmedCutIsValid(bytes, SNIFF_BYTES); }
    if 0 in window {
      return true;
    }
    if !Valid(window) {
      return true;
    }
    var nonText := 0;
    for i := 0 to |window|
      invariant nonText == NonText(window[..i])
    {
      assert window[..i + 1][..i] == window[..i];
      if !Printable(window[i]) || window[i] == 0x7F {
        nonText := nonText + 1;
      }
    }
    assert window[..|window|] == window;
    return 10 * nonText > 3 * |window|;
  }
}
