/**
 * The header and entry codecs as seen from the chain: functions with a few laws. The
 * laws are proved for the real codecs in `RealFormat`; everything above uses only them.
 */
module ChainFormat {
  import opened Collections
  import opened Wire
  import opened HeaderFormat
  import opened HeaderCut

  datatype Format = Format(
    hash: Bytes -> Bytes,
    isHash: Bytes -> bool,
    sign: Bytes -> Option<Bytes>,
    encode: Content -> Bytes,
    headerBytes: Header -> Bytes,
    readHeader: Bytes -> Parsed<Header>,
    entryBytes: Content -> Bytes,
    readEntry: Bytes -> Parsed<Content>)

  function FormatOf(u: Suite): Format {
    Format(u.hash, u.isHash, u.sign, u.encode,
           (h: Header) => HeaderBytes(u, h), (s: Bytes) => ParseHeader(u, s),
           (c: Content) => EntryBytes(u, c), (s: Bytes) => ParseEntry(u, s))
  }

  /** The length of the encoded content fits the eight bytes it is written into. */
  predicate Storable(f: Format, c: Content) {
    |f.encode(c)| < Pow256(8)
  }

  // Each law is a predicate of one argument value, so that it is used where that value is mentioned.

  ghost predicate HashLaw(f: Format, b: Bytes) {
    |f.hash(b)| == HASH_SIZE && f.hash(b)[0] != 0 && f.isHash(f.hash(b))
  }

  ghost predicate HashLaws(f: Format) {
    forall b :: HashLaw(f, b)
  }

  /** No two of these byte strings have the same hash. */
  ghost predicate NoCollision(f: Format, bs: set<Bytes>) {
    forall a, b :: a in bs && b in bs && f.hash(a) == f.hash(b) ==> a == b
  }

  /** A header that can be held is written and read back, and a part of it is not read. */
  ghost predicate HeaderLaw(f: Format, h: Header) {
    Writable(h) ==>
      && |f.headerBytes(h)| == HeaderLength(h)
      && (forall rest :: f.readHeader(f.headerBytes(h) + rest) == Ok(h, rest))
      && (forall k :: 0 <= k < |f.headerBytes(h)| ==> f.readHeader(f.headerBytes(h)[..k]) == Bad(Ending(AtField(h, k))))
  }

  /** A header that was read can be held; it took up its bytes, the first of which is the length of its type. */
  ghost predicate HeaderReadLaw(f: Format, s: Bytes) {
    f.readHeader(s).Ok? ==>
      var h := f.readHeader(s).value;
      Writable(h) && |s| == HeaderLength(h) + |f.readHeader(s).rest| && |h.typ| == s[0]
  }

  ghost predicate HeaderLaws(f: Format) {
    (forall h :: HeaderLaw(f, h)) && (forall s :: HeaderReadLaw(f, s)) && f.readHeader([]) == Bad(EOF)
  }

  ghost predicate EntryLaw(f: Format, c: Content) {
    && |f.entryBytes(c)| == 8 + |f.encode(c)|
    && (|c| <= SHORT ==> Storable(f, c))
    && (Storable(f, c) ==>
          && (forall rest :: f.readEntry(f.entryBytes(c) + rest) == Ok(c, rest))
          && (forall k :: 0 <= k < |f.entryBytes(c)|
                ==> f.readEntry(f.entryBytes(c)[..k]) == Bad(Ending(k == 0 || k == 8))))
  }

  ghost predicate EntryReadLaw(f: Format, s: Bytes) {
    f.readEntry(s).Ok? ==> |f.readEntry(s).rest| <= |s|
  }

  ghost predicate EncodeLaw(f: Format, c: Content, d: Content) {
    f.encode(c) == f.encode(d) ==> c == d
  }

  ghost predicate EntryLaws(f: Format) {
    (forall c :: EntryLaw(f, c)) && (forall s :: EntryReadLaw(f, s)) && (forall c, d :: EncodeLaw(f, c, d))
  }

  ghost predicate Lawful(f: Format) {
    HashLaws(f) && HeaderLaws(f) && EntryLaws(f)
  }

  // ---------- the real codecs obey the laws ----------

  lemma HeaderBytesLength(u: Suite, h: Header)
    requires HeaderFormat.Lawful(u) && Writable(h)
    ensures |HeaderBytes(u, h)| == HeaderLength(h)
  {
    var n := |HashBytes(h.headerLink)| + |HashBytes(h.entryLink)| + |HashBytes(h.typeLink)| + |ChangedBytes(h)|;
    assert n == 4 * HASH_SIZE;
  }

  lemma StrConsumes(s: Bytes)
    requires ParseStr(s).Ok?
    ensures |s| == 1 + |ParseStr(s).value| + |ParseStr(s).rest|
  {
  }

  lemma HeaderConsumes(u: Suite, s: Bytes)
    requires ParseHeader(u, s).Ok?
    ensures |s| == HeaderLength(ParseHeader(u, s).value) + |ParseHeader(u, s).rest|
  {
    StrConsumes(s);
    var s5 := ParseHash(ParseHash(ParseHash(TakeBytes(TIME_SIZE, ParseStr(s).rest).rest).rest).rest).rest;
    StrConsumes(s5);
    StrConsumes(ParseStr(s5).rest);
  }

  lemma HeaderStart(u: Suite, s: Bytes)
    requires ParseHeader(u, s).Ok? && |s| > 0
    ensures |ParseHeader(u, s).value.typ| == s[0]
  {
    StrStart(s);
  }

  lemma StrStart(s: Bytes)
    requires ParseStr(s).Ok? && |s| > 0
    ensures |ParseStr(s).value| == s[0]
  {
  }

  lemma RealHeaderLaw(u: Suite, h: Header)
    requires HeaderFormat.Lawful(u)
    ensures HeaderLaw(FormatOf(u), h)
  {
    var f := FormatOf(u);
    if Writable(h) {
      HeaderBytesLength(u, h);
      forall rest ensures f.readHeader(f.headerBytes(h) + rest) == Ok(h, rest) {
        HeaderRoundTrip(u, h, rest);
      }
      forall k | 0 <= k < |f.headerBytes(h)| ensures f.readHeader(f.headerBytes(h)[..k]) == Bad(Ending(AtField(h, k))) {
        HeaderCutShort(u, h, k);
      }
    }
  }

  lemma RealHeaderLaws(u: Suite)
    requires HeaderFormat.Lawful(u)
    ensures HeaderLaws(FormatOf(u))
  {
    var f := FormatOf(u);
    forall h ensures HeaderLaw(f, h) {
      RealHeaderLaw(u, h);
    }
    forall s ensures HeaderReadLaw(f, s) {
      if f.readHeader(s).Ok? {
        ParsedIsWritable(u, s);
        HeaderConsumes(u, s);
        HeaderStart(u, s);
      }
    }
  }

  lemma EncodeInjective(u: Suite, c: Content, d: Content)
    requires HeaderFormat.Lawful(u) && u.encode(c) == u.encode(d)
    ensures c == d
  {
    assert u.decode(u.encode(c)) == Some(c) && u.decode(u.encode(d)) == Some(d);
  }

  lemma RealEntryLaw(u: Suite, c: Content)
    requires HeaderFormat.Lawful(u)
    ensures EntryLaw(FormatOf(u), c)
  {
    var f := FormatOf(u);
    if Storable(f, c) {
      forall rest ensures f.readEntry(f.entryBytes(c) + rest) == Ok(c, rest) {
        EntryReadBackIff(u, c, rest);
      }
      forall k | 0 <= k < |f.entryBytes(c)| ensures f.readEntry(f.entryBytes(c)[..k]) == Bad(Ending(k == 0 || k == 8)) {
        EntryCutShort(u, c, k);
      }
    }
  }

  lemma RealEntryLaws(u: Suite)
    requires HeaderFormat.Lawful(u)
    ensures EntryLaws(FormatOf(u))
  {
    var f := FormatOf(u);
    forall c ensures EntryLaw(f, c) {
      RealEntryLaw(u, c);
    }
    forall s ensures EntryReadLaw(f, s) {
    }
    forall c, d ensures EncodeLaw(f, c, d) {
      if f.encode(c) == f.encode(d) { EncodeInjective(u, c, d); }
    }
  }

  /** The formats of header.go and entry.go, over any lawful libraries. */
  lemma RealFormat(u: Suite)
    requires HeaderFormat.Lawful(u)
    ensures Lawful(FormatOf(u))
  {
    RealHeaderLaws(u);
    RealEntryLaws(u);
    forall b ensures HashLaw(FormatOf(u), b) {
    }
  }
}
