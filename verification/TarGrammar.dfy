/** The language of the tar reader: exactly the streams of extended members, path-less extension headers and zeros. */
module TarGrammar {
  import opened Bytes
  import opened Sorting
  import opened TarFields
  import opened TarNormalForm
  import opened TarReader
  import opened TarRoundTrip
  import opened TarWriter
  import opened Utf8
  import opened Wrappers

  /** `tar` is these entries in these encodings, then extension headers that set no path, then zeros. */
  ghost predicate CarriedBy(tar: Bytes, es: seq<Entry>, encs: seq<Encoding>, trailer: seq<Extension>, zeros: nat, limits: Limits) {
    && zeros >= 1024 && AllEncode(encs, es, limits) && Trailing(trailer, limits)
    && tar == Stream(encs, es) + Ending(trailer, zeros)
  }

  ghost predicate Carries(tar: Bytes, es: seq<Entry>, limits: Limits) {
    exists encs, trailer, zeros: nat :: CarriedBy(tar, es, encs, trailer, zeros, limits)
  }

  // ---- One step of the reader, read backwards ----

  /** The front of a stream as a header, its payload and its padding. */
  lemma {:induction false} CutFront(rest: Bytes, size: nat)
    requires 512 + Padded(size) <= |rest|
    ensures var padding := rest[512 + size..512 + Padded(size)];
            && rest == rest[..512] + rest[512..512 + size] + padding + rest[512 + Padded(size)..]
            && PaddingFor(padding, size)
  {
  }

  lemma {:induction false} RawParts(rest: Bytes, raw: Raw, limits: Limits)
    requires |rest| >= 512 && ReadRaw(rest, limits) == Ok(raw)
    ensures var header := rest[..512];
            && ChecksumHolds(header) && ReadString(header[..100]) == Ok(raw.name) && ReadString(header[345..500]) == Ok(raw.prefix)
            && ParseOctal(header[124..136]) == Ok(|raw.data|)
            && raw.length == 512 + Padded(|raw.data|) <= |rest| && raw.data == rest[512..512 + |raw.data|]
            && |raw.data| <= limits.maxEntryBytes
  {
    hide ParseOctal, ReadString, Checksum;
  }

  /** A stream whose first non-zero header was read: header, payload, padding and the rest. */
  lemma {:induction false} RawCut(rest: Bytes, raw: Raw, limits: Limits) returns (padding: Bytes)
    requires |rest| >= 512 && ReadRaw(rest, limits) == Ok(raw)
    ensures raw.length <= |rest| && PaddingFor(padding, |raw.data|)
    ensures rest == rest[..512] + raw.data + padding + rest[raw.length..]
  {
    RawParts(rest, raw, limits);
    hide ReadRaw;
    CutFront(rest, |raw.data|);
    padding := rest[512 + |raw.data|..512 + Padded(|raw.data|)];
  }

  /** An admitted member, as an entry with a header that announces it. */
  lemma {:induction false} AdmittedMember(header: Bytes, raw: Raw, path: Bytes, limits: Limits, st: State) returns (e: Entry)
    requires |header| == 512 && !AllZero(header) && ChecksumHolds(header)
    requires ReadString(header[..100]) == Ok(raw.name) && ReadString(header[345..500]) == Ok(raw.prefix)
    requires ParseOctal(header[124..136]) == Ok(|raw.data|)
    requires Admit(header, path, raw.data, limits, st).Ok?
    ensures e.path == path && e.data == raw.data && HeaderFor(header, e.kind, e.mode, |e.data|)
    ensures Admit(header, path, raw.data, limits, st).value.entries == st.entries + [e]
    ensures Admit(header, path, raw.data, limits, st).value.pending == None
  {
    hide ReadString, ChecksumHolds, AllZero, SafePath, LegalMode, HasPath;
    e := Entry(path, ParseOctal(header[100..108]).value, KindOf(header[156]).value, raw.data);
  }

  // ---- Every accepted stream is carried ----

  /** What is left of an accepted stream, met with a pending path. */
  ghost predicate CarriedFrom(pending: Option<Bytes>, rest: Bytes, es: seq<Entry>, encs: seq<Encoding>, trailer: seq<Extension>, zeros: nat, limits: Limits) {
    && zeros >= 1024 && |encs| == |es| && rest == Stream(encs, es) + Ending(trailer, zeros)
    && if es == [] then AllExtensions(trailer, limits) && PendingAfter(trailer, pending) == Some(None)
       else && EncodesFrom(pending, encs[0], es[0], es[0].path, limits)
            && AllEncode(encs[1..], es[1..], limits) && Trailing(trailer, limits)
  }

  lemma {:induction false} CarriedFromNone(rest: Bytes, es: seq<Entry>, encs: seq<Encoding>, trailer: seq<Extension>, zeros: nat, limits: Limits)
    requires CarriedFrom(None, rest, es, encs, trailer, zeros, limits)
    ensures CarriedBy(rest, es, encs, trailer, zeros, limits)
  {
    hide EncodesFrom, Stream, Ending, AllExtensions, PendingAfter;
  }

  lemma {:induction false} AllZeros(rest: Bytes)
    requires AllZero(rest)
    ensures rest == Zeros(|rest|)
  {
  }

  lemma {:induction false} ZerosAreCarried(rest: Bytes, limits: Limits, st: State)
    requires |rest| >= 512 && AllZero(rest[..512]) && Terminate(rest, st).Ok?
    ensures CarriedFrom(st.pending, rest, [], [], [], |rest|, limits) && Terminate(rest, st).value == st.entries
  {
    assert rest == rest[..1024] + rest[1024..];
    AllZeros(rest);
    assert Stream([], []) + Ending([], |rest|) == Zeros(|rest|);
  }

  /** One more extension header in front. */
  function Prefixed(x: Extension, encs: seq<Encoding>): seq<Encoding> {
    if encs == [] then [] else [encs[0].(extensions := [x] + encs[0].extensions)] + encs[1..]
  }

  lemma {:induction false} PendingCons(x: Extension, xs: seq<Extension>, pending: Option<Bytes>, next: Option<Bytes>)
    requires |x.header| == 512 && Extend(x.header[156], x.data, pending) == Some(next)
    ensures PendingAfter([x] + xs, pending) == PendingAfter(xs, next)
  {
    hide Extend;
    assert ([x] + xs)[1..] == xs;
  }

  lemma {:induction false} ExtensionsCons(x: Extension, xs: seq<Extension>, limits: Limits)
    requires ExtensionHeader(x.header, |x.data|) && PaddingFor(x.padding, |x.data|) && |x.data| <= limits.maxEntryBytes
    requires AllExtensions(xs, limits)
    ensures AllExtensions([x] + xs, limits)
    ensures ExtensionBytes([x] + xs) == x.header + x.data + x.padding + ExtensionBytes(xs)
  {
    hide ExtensionHeader;
    assert ([x] + xs)[1..] == xs;
  }

  lemma {:induction false} BytesPrefixed(x: Extension, enc: Encoding, e: Entry, limits: Limits)
    requires ExtensionBytes([x] + enc.extensions) == x.header + x.data + x.padding + ExtensionBytes(enc.extensions)
    ensures EncodedBytes(enc.(extensions := [x] + enc.extensions), e) == x.header + x.data + x.padding + EncodedBytes(enc, e)
  {
    hide ExtensionBytes;
  }

  lemma {:induction false} FrontJoins(a: Bytes, b: Bytes, c: Bytes, d: Bytes)
    ensures a + b + c + d == a + (b + c + d) && (a + b) + c == a + (b + c)
  {
  }

  lemma {:induction false} StreamPrefixed(x: Extension, encs: seq<Encoding>, es: seq<Entry>, tail: Bytes, limits: Limits)
    requires |encs| == |es| && es != []
    requires ExtensionBytes([x] + encs[0].extensions) == x.header + x.data + x.padding + ExtensionBytes(encs[0].extensions)
    ensures |Prefixed(x, encs)| == |es|
    ensures Stream(Prefixed(x, encs), es) + tail == x.header + x.data + x.padding + (Stream(encs, es) + tail)
  {
    var front, more := x.header + x.data + x.padding, Stream(encs[1..], es[1..]);
    BytesPrefixed(x, encs[0], es[0], limits);
    assert Prefixed(x, encs)[1..] == encs[1..];
    hide EncodedBytes, ExtensionBytes;
    assert Stream(Prefixed(x, encs), es) == (front + EncodedBytes(encs[0], es[0])) + more;
    FrontJoins(front, EncodedBytes(encs[0], es[0]), more, tail);
    FrontJoins(front, EncodedBytes(encs[0], es[0]) + more, tail, []);
  }

  lemma {:induction false} ExtensionCarried(x: Extension, pending: Option<Bytes>, next: Option<Bytes>, more: Bytes, es: seq<Entry>, encs: seq<Encoding>,
                                            trailer: seq<Extension>, zeros: nat, limits: Limits)
    returns (encs': seq<Encoding>, trailer': seq<Extension>)
    requires ExtensionHeader(x.header, |x.data|) && PaddingFor(x.padding, |x.data|) && |x.data| <= limits.maxEntryBytes
    requires Extend(x.header[156], x.data, pending) == Some(next) && CarriedFrom(next, more, es, encs, trailer, zeros, limits)
    ensures CarriedFrom(pending, x.header + x.data + x.padding + more, es, encs', trailer', zeros, limits)
  {
    var front := x.header + x.data + x.padding;
    if es == [] {
      encs', trailer' := [], [x] + trailer;
      PendingCons(x, trailer, pending, next);
      ExtensionsCons(x, trailer, limits);
      hide ExtensionBytes, AllExtensions, PendingAfter, Extend, ExtensionHeader;
      FrontJoins(front, ExtensionBytes(trailer), Zeros(zeros), []);
      assert Stream([], []) + Ending(trailer', zeros) == front + (ExtensionBytes(trailer) + Zeros(zeros));
      assert more == Ending(trailer, zeros);
    } else {
      encs', trailer' := Prefixed(x, encs), trailer;
      var enc := encs[0];
      PendingCons(x, enc.extensions, pending, next);
      ExtensionsCons(x, enc.extensions, limits);
      StreamPrefixed(x, encs, es, Ending(trailer, zeros), limits);
      assert encs'[0] == enc.(extensions := [x] + enc.extensions) && encs'[1..] == encs[1..];
      hide ExtensionBytes, AllExtensions, PendingAfter, Extend, ExtensionHeader, HeaderFor, MemberPath, Stream, Ending, AllEncode, PaddingFor;
      assert EncodesFrom(pending, encs'[0], es[0], es[0].path, limits);
    }
  }

  lemma {:induction false} MemberCarried(pending: Option<Bytes>, header: Bytes, padding: Bytes, e: Entry, more: Bytes, es: seq<Entry>, encs: seq<Encoding>,
                                         trailer: seq<Extension>, zeros: nat, limits: Limits)
    requires HeaderFor(header, e.kind, e.mode, |e.data|) && PaddingFor(padding, |e.data|) && MemberPath(header, pending) == e.path
    requires CarriedFrom(None, more, es, encs, trailer, zeros, limits)
    ensures CarriedFrom(pending, header + e.data + padding + more, [e] + es, [Encoding([], header, padding)] + encs, trailer, zeros, limits)
  {
    CarriedFromNone(more, es, encs, trailer, zeros, limits);
    var enc, all, entries := Encoding([], header, padding), [Encoding([], header, padding)] + encs, [e] + es;
    assert all[1..] == encs && entries[1..] == es;
    assert EncodesFrom(pending, enc, e, e.path, limits);
    assert EncodedBytes(enc, e) == header + e.data + padding;
    hide EncodesFrom, HeaderFor, EncodedBytes, Ending, AllEncode, Trailing, PaddingFor, MemberPath;
    StreamHead(all, entries, Ending(trailer, zeros));
  }

  /** Whatever the reader accepts, from any state, is carried; the entries it adds are the carried ones. */
  lemma {:induction false} AcceptedIsCarried(rest: Bytes, limits: Limits, st: State)
    returns (es: seq<Entry>, encs: seq<Encoding>, trailer: seq<Extension>, zeros: nat)
    requires ParseBlocks(rest, limits, st).Ok?
    ensures ParseBlocks(rest, limits, st).value == st.entries + es
    ensures CarriedFrom(st.pending, rest, es, encs, trailer, zeros, limits)
    decreases |rest|
  {
    hide ReadRaw, Interpret, CarriedFrom, Terminate, AllZero, ReadString, ParseOctal, ChecksumHolds, PaddingFor;
    if AllZero(rest[..512]) {
      ZerosAreCarried(rest, limits, st);
      es, encs, trailer, zeros := [], [], [], |rest|;
    } else {
      var header, raw := rest[..512], ReadRaw(rest, limits).value;
      var next := Interpret(header, raw, limits, st).value;
      var padding := RawCut(rest, raw, limits);
      RawParts(rest, raw, limits);
      assert Announces(header, raw, limits);
      hide ParseBlocks, Announces;
      es, encs, trailer, zeros := AcceptedIsCarried(rest[raw.length..], limits, next);
      es, encs, trailer := HeaderCarried(header, raw, padding, rest[raw.length..], next, limits, st, es, encs, trailer, zeros);
    }
  }

  predicate Extends(typeByte: Byte) {
    typeByte == 0x78 || typeByte == 0x67 || typeByte == 0x4C
  }

  lemma {:induction false} InterpretMember(header: Bytes, raw: Raw, limits: Limits, st: State)
    requires |header| == 512 && !Extends(header[156])
    requires ReadString(header[..100]) == Ok(raw.name) && ReadString(header[345..500]) == Ok(raw.prefix)
    ensures Interpret(header, raw, limits, st) == Admit(header, MemberPath(header, st.pending), raw.data, limits, st)
  {
    hide ReadString, Admit, ParsePax, ParseGnuLongPath;
  }

  /** What ReadRaw has established of a header. */
  predicate Announces(header: Bytes, raw: Raw, limits: Limits) {
    && |header| == 512 && !AllZero(header) && ChecksumHolds(header)
    && ReadString(header[..100]) == Ok(raw.name) && ReadString(header[345..500]) == Ok(raw.prefix)
    && ParseOctal(header[124..136]) == Ok(|raw.data|) && |raw.data| <= limits.maxEntryBytes
  }

  lemma {:induction false} AnnouncedExtension(header: Bytes, raw: Raw, limits: Limits)
    requires Announces(header, raw, limits) && Extends(header[156])
    ensures ExtensionHeader(header, |raw.data|)
  {
    hide ReadString, ParseOctal, ChecksumHolds, AllZero;
  }

  lemma {:induction false} AnnouncedMember(header: Bytes, raw: Raw, next: State, limits: Limits, st: State) returns (e: Entry)
    requires Announces(header, raw, limits) && !Extends(header[156]) && Interpret(header, raw, limits, st) == Ok(next)
    ensures e.data == raw.data && HeaderFor(header, e.kind, e.mode, |e.data|) && MemberPath(header, st.pending) == e.path
    ensures next.entries == st.entries + [e] && next.pending == None
  {
    hide ReadString, ParseOctal, ChecksumHolds, AllZero, Interpret, Admit, MemberPath, HeaderFor;
    InterpretMember(header, raw, limits, st);
    e := AdmittedMember(header, raw, MemberPath(header, st.pending), limits, st);
  }

  lemma {:induction false} HeaderCarried(header: Bytes, raw: Raw, padding: Bytes, more: Bytes, next: State, limits: Limits, st: State,
                                         es: seq<Entry>, encs: seq<Encoding>, trailer: seq<Extension>, zeros: nat)
    returns (es': seq<Entry>, encs': seq<Encoding>, trailer': seq<Extension>)
    requires Announces(header, raw, limits) && Interpret(header, raw, limits, st) == Ok(next) && PaddingFor(padding, |raw.data|)
    requires CarriedFrom(next.pending, more, es, encs, trailer, zeros, limits)
    ensures CarriedFrom(st.pending, header + raw.data + padding + more, es', encs', trailer', zeros, limits)
    ensures next.entries + es == st.entries + es'
  {
    AnnouncedSize(header, raw, limits);
    hide *;
    if Extends(header[156]) {
      es' := es;
      encs', trailer' := ExtensionStep(header, raw, padding, more, next, limits, st, es, encs, trailer, zeros);
    } else {
      var e := AnnouncedMember(header, raw, next, limits, st);
      MemberCarried(st.pending, header, padding, e, more, es, encs, trailer, zeros, limits);
      es', encs', trailer' := [e] + es, [Encoding([], header, padding)] + encs, trailer;
      AppendAssociates(st.entries, [e], es);
    }
  }

  lemma {:induction false} ExtensionStep(header: Bytes, raw: Raw, padding: Bytes, more: Bytes, next: State, limits: Limits, st: State,
                                         es: seq<Entry>, encs: seq<Encoding>, trailer: seq<Extension>, zeros: nat)
    returns (encs': seq<Encoding>, trailer': seq<Extension>)
    requires Announces(header, raw, limits) && |header| == 512 && Extends(header[156])
    requires Interpret(header, raw, limits, st) == Ok(next) && PaddingFor(padding, |raw.data|)
    requires CarriedFrom(next.pending, more, es, encs, trailer, zeros, limits)
    ensures CarriedFrom(st.pending, header + raw.data + padding + more, es, encs', trailer', zeros, limits)
    ensures next.entries == st.entries
  {
    AnnouncedSize(header, raw, limits);
    AnnouncedExtension(header, raw, limits);
    assert header[156] == 0x78 || header[156] == 0x67 || header[156] == 0x4C;
    hide *;
    InterpretExtension(header, raw, limits, st);
    encs', trailer' := ExtensionCarried(Extension(header, raw.data, padding), st.pending, next.pending, more, es, encs, trailer, zeros, limits);
  }

  lemma {:induction false} AnnouncedSize(header: Bytes, raw: Raw, limits: Limits)
    requires Announces(header, raw, limits)
    ensures |header| == 512 && |raw.data| <= limits.maxEntryBytes
  {
    hide ReadString, ParseOctal, ChecksumHolds, AllZero;
  }

  /** The reader returns these entries exactly when the stream carries them and they are valid under the limits. */
  lemma {:induction false} AcceptedIff(tar: Bytes, limits: Limits, es: seq<Entry>)
    ensures ParseTar(tar, limits) == Ok(es) <==> Carries(tar, es, limits) && ValidArchive(es, limits)
  {
    hide ParseBlocks, ValidArchive, CarriedBy, CarriedFrom;
    if ParseTar(tar, limits) == Ok(es) {
      ParsedIsValid(tar, limits);
      var found, encs, trailer, zeros := AcceptedIsCarried(tar, limits, START);
      assert [] + found == found;
      CarriedFromNone(tar, es, encs, trailer, zeros, limits);
    }
    if Carries(tar, es, limits) && ValidArchive(es, limits) {
      var encs, trailer, zeros: nat :| CarriedBy(tar, es, encs, trailer, zeros, limits);
      CarriedIsParsed(tar, es, encs, trailer, zeros, limits);
    }
  }

  lemma {:induction false} CarriedIsParsed(tar: Bytes, es: seq<Entry>, encs: seq<Encoding>, trailer: seq<Extension>, zeros: nat, limits: Limits)
    requires CarriedBy(tar, es, encs, trailer, zeros, limits) && ValidArchive(es, limits)
    ensures ParseTar(tar, limits) == Ok(es)
  {
    hide ParseTar, AllEncode, Trailing, Stream, Ending, ValidArchive;
    ParseStream(encs, es, trailer, zeros, limits);
  }

  // ---- Two tarballs ----

  /** Accepted tarballs with the same entries canonicalise to the same result, whatever else differs between them. */
  lemma {:induction false} SameEntriesSameResult(a: Bytes, b: Bytes, limits: Limits, limits': Limits, codec: Codec)
    requires ParseTarball(a, limits, codec.gunzip).Ok? && ParseTarball(b, limits', codec.gunzip).Ok?
    requires forall e :: e in ParseTarball(a, limits, codec.gunzip).value <==> e in ParseTarball(b, limits', codec.gunzip).value
    ensures Canonicalize(a, limits, codec) == Canonicalize(b, limits', codec)
  {
    hide ParseTar, CanonicalTar;
    ParsedIsValid(codec.gunzip(a).value, limits);
    ParsedIsValid(codec.gunzip(b).value, limits');
    CanonicalTarIsNormal(ParseTarball(a, limits, codec.gunzip).value, ParseTarball(b, limits', codec.gunzip).value);
  }
}
