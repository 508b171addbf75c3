/**
 * Headers and entries whose last bytes are missing (header.go, entry.go): the reader stops
 * with EOF where one of its reads finds nothing left, and with UnexpectedEOF inside a read.
 */
module HeaderCut {
  import opened Collections
  import opened Wire
  import opened HeaderFormat

  /** The size of a written header. */
  function HeaderLength(h: Header): nat {
    4 * HASH_SIZE + TIME_SIZE + 11 + |h.typ| + |h.sig| + |h.action|
  }

  function SigAt(h: Header): nat {
    1 + |h.typ| + TIME_SIZE + 3 * HASH_SIZE
  }

  /** One of the reads that make up the strings and the hash behind the links begins after `k` bytes of that part. */
  predicate AtTailField(h: Header, k: int) {
    var action := 1 + |h.sig|;
    var changed := action + 1 + |h.action|;
    k == 0 || k == 1 || k == action || k == action + 1 || k == changed || k == changed + HASH_SIZE
  }

  /** One of the reads that make up a header begins after `k` of its bytes. */
  predicate AtField(h: Header, k: int) {
    var time := 1 + |h.typ|;
    || k == 0 || k == 1 || k == time || k == time + TIME_SIZE
    || k == time + TIME_SIZE + HASH_SIZE || k == time + TIME_SIZE + 2 * HASH_SIZE
    || AtTailField(h, k - SigAt(h))
  }

  function Ending(atField: bool): Error {
    if atField then EOF else UnexpectedEOF
  }

  // ---------- a header in three parts ----------

  function ParseFront(u: Suite, s: Bytes): Parsed<(Bytes, Time)> {
    match ParseStr(s) case Bad(e) => Bad(e) case Ok(typ, s1) =>
    match TakeBytes(TIME_SIZE, s1) case Bad(e) => Bad(e) case Ok(time, rest) => Ok((typ, u.decodeTime(time)), rest)
  }

  function ParseTwo(s: Bytes): Parsed<(Bytes, Bytes)> {
    match ParseHash(s) case Bad(e) => Bad(e) case Ok(a, s1) =>
    match ParseHash(s1) case Bad(e) => Bad(e) case Ok(b, rest) => Ok((a, b), rest)
  }

  function ParseLinks(s: Bytes): Parsed<(Bytes, Bytes, Bytes)> {
    match ParseHash(s) case Bad(e) => Bad(e) case Ok(headerLink, s1) =>
    match ParseTwo(s1) case Bad(e) => Bad(e) case Ok((entryLink, typeLink), rest) =>
      Ok((headerLink, entryLink, typeLink), rest)
  }

  /** The end of the tail: the hash and eight bytes for later use. */
  function ParseEnd(s: Bytes): Parsed<Bytes> {
    match ParseHash(s) case Bad(e) => Bad(e) case Ok(changed, s1) =>
    match TakeBytes(8, s1) case Bad(e) => Bad(e) case Ok(_, rest) => Ok(changed, rest)
  }

  /** The action and what follows it. */
  function ParseAction(s: Bytes): Parsed<(Bytes, Bytes)> {
    match ParseStr(s) case Bad(e) => Bad(e) case Ok(action, s1) =>
    match ParseEnd(s1) case Bad(e) => Bad(e) case Ok(changed, rest) => Ok((action, changed), rest)
  }

  function ParseTail(s: Bytes): Parsed<(Bytes, Bytes, Bytes)> {
    match ParseStr(s) case Bad(e) => Bad(e) case Ok(sig, s1) =>
    match ParseAction(s1) case Bad(e) => Bad(e) case Ok((action, changed), rest) => Ok((sig, action, changed), rest)
  }

  function TailBytes(h: Header): Bytes {
    StrBytes(h.sig) + (StrBytes(h.action) + (ChangedBytes(h) + Zeros(8)))
  }

  function LinksBytes(h: Header): Bytes {
    HashBytes(h.headerLink) + (HashBytes(h.entryLink) + (HashBytes(h.typeLink) + TailBytes(h)))
  }

  /** What stops the reading of links and tail, if anything does. */
  function BackError(s: Bytes): Option<Error> {
    match ParseLinks(s) case Bad(e) => Some(e) case Ok(_, rest) =>
    match ParseTail(rest) case Bad(e) => Some(e) case Ok(_, _) => None
  }

  lemma FrontStops(u: Suite, s: Bytes)
    requires ParseFront(u, s).Bad?
    ensures ParseHeader(u, s) == Bad(ParseFront(u, s).error)
  {
  }

  lemma LinksStop(u: Suite, s: Bytes)
    requires ParseFront(u, s).Ok? && ParseLinks(ParseFront(u, s).rest).Bad?
    ensures ParseHeader(u, s) == Bad(ParseLinks(ParseFront(u, s).rest).error)
  {
  }

  lemma TailStops(u: Suite, s: Bytes)
    requires ParseFront(u, s).Ok? && ParseLinks(ParseFront(u, s).rest).Ok?
    requires ParseTail(ParseLinks(ParseFront(u, s).rest).rest).Bad?
    ensures ParseHeader(u, s) == Bad(ParseTail(ParseLinks(ParseFront(u, s).rest).rest).error)
  {
  }

  lemma BackStops(u: Suite, s: Bytes)
    requires ParseFront(u, s).Ok? && BackError(ParseFront(u, s).rest).Some?
    ensures ParseHeader(u, s) == Bad(BackError(ParseFront(u, s).rest).value)
  {
    if ParseLinks(ParseFront(u, s).rest).Bad? { LinksStop(u, s); } else { TailStops(u, s); }
  }

  lemma FrontCut(u: Suite, h: Header, rest: Bytes, k: nat)
    requires Lawful(u) && |h.typ| <= 255 && k <= |StrBytes(h.typ) + (u.encodeTime(h.time) + rest)|
    ensures ParseFront(u, (StrBytes(h.typ) + (u.encodeTime(h.time) + rest))[..k])
            == if k < 1 + |h.typ| + TIME_SIZE then Bad(Ending(k == 0 || k == 1 || k == 1 + |h.typ|))
               else Ok((h.typ, h.time), rest[..k - (1 + |h.typ| + TIME_SIZE)])
  {
    var t := u.encodeTime(h.time);
    StrCut(h.typ, t + rest, k);
    if k >= 1 + |h.typ| { TakeCut(t, rest, k - 1 - |h.typ|); }
  }

  lemma LinksCut(h: Header, k: nat)
    requires Writable(h) && k <= |LinksBytes(h)|
    ensures ParseLinks(LinksBytes(h)[..k])
            == if k < 3 * HASH_SIZE then Bad(Ending(k == 0 || k == HASH_SIZE || k == 2 * HASH_SIZE))
               else Ok((h.headerLink, h.entryLink, h.typeLink), TailBytes(h)[..k - 3 * HASH_SIZE])
  {
    HashCut(h.headerLink, HashBytes(h.entryLink) + (HashBytes(h.typeLink) + TailBytes(h)), k);
    if k >= HASH_SIZE { TwoCut(h.entryLink, h.typeLink, TailBytes(h), k - HASH_SIZE); }
  }

  lemma TwoCut(a: Bytes, b: Bytes, rest: Bytes, k: nat)
    requires GoodHash(a) && GoodHash(b) && k <= |HashBytes(a) + (HashBytes(b) + rest)|
    ensures ParseTwo((HashBytes(a) + (HashBytes(b) + rest))[..k])
            == if k < 2 * HASH_SIZE then Bad(Ending(k == 0 || k == HASH_SIZE))
               else Ok((a, b), rest[..k - 2 * HASH_SIZE])
  {
    HashCut(a, HashBytes(b) + rest, k);
    if k >= HASH_SIZE { HashCut(b, rest, k - HASH_SIZE); }
  }

  lemma TailCut(h: Header, k: nat)
    requires Writable(h) && k < |TailBytes(h)|
    ensures ParseTail(TailBytes(h)[..k]) == Bad(Ending(AtTailField(h, k)))
  {
    var c := StrBytes(h.action) + (ChangedBytes(h) + Zeros(8));
    StrCut(h.sig, c, k);
    if k > |h.sig| { ActionCut(h, k - 1 - |h.sig|); }
  }

  lemma ActionCut(h: Header, k: nat)
    requires Writable(h) && k < |StrBytes(h.action) + (ChangedBytes(h) + Zeros(8))|
    ensures ParseAction((StrBytes(h.action) + (ChangedBytes(h) + Zeros(8)))[..k])
            == Bad(Ending(k == 0 || k == 1 || k == 1 + |h.action| || k == 1 + |h.action| + HASH_SIZE))
  {
    StrCut(h.action, ChangedBytes(h) + Zeros(8), k);
    if k > |h.action| { EndCut(h, k - 1 - |h.action|); }
  }

  lemma EndCut(h: Header, k: nat)
    requires Writable(h) && k < |ChangedBytes(h) + Zeros(8)|
    ensures ParseEnd((ChangedBytes(h) + Zeros(8))[..k]) == Bad(Ending(k == 0 || k == HASH_SIZE))
  {
    HashCut(h.changed.value, Zeros(8), k);
    if k >= HASH_SIZE {
      assert Zeros(8) + [] == Zeros(8);
      TakeCut(Zeros(8), [], k - HASH_SIZE);
    }
  }

  lemma BackCut(h: Header, k: nat)
    requires Writable(h) && k < |LinksBytes(h)|
    ensures BackError(LinksBytes(h)[..k])
            == Some(Ending(k == 0 || k == HASH_SIZE || k == 2 * HASH_SIZE || AtTailField(h, k - 3 * HASH_SIZE)))
  {
    LinksCut(h, k);
    if k >= 3 * HASH_SIZE { TailCut(h, k - 3 * HASH_SIZE); }
  }

  /** A header that is cut short ends the reading, with EOF exactly where a read begins. */
  lemma HeaderCutShort(u: Suite, h: Header, k: nat)
    requires Lawful(u) && Writable(h) && k < |HeaderBytes(u, h)|
    ensures ParseHeader(u, HeaderBytes(u, h)[..k]) == Bad(Ending(AtField(h, k)))
  {
    var s := (StrBytes(h.typ) + (u.encodeTime(h.time) + LinksBytes(h)))[..k];
    assert HeaderBytes(u, h)[..k] == s;
    FrontCut(u, h, LinksBytes(h), k);
    var k1: int := k - (1 + |h.typ| + TIME_SIZE);
    if k1 < 0 {
      FrontStops(u, s);
    } else {
      BackCut(h, k1);
      BackStops(u, s);
    }
  }

  /** An entry that is cut short ends the reading, with EOF exactly before its length and before its bytes. */
  lemma EntryCutShort(u: Suite, c: Content, k: nat)
    requires |u.encode(c)| < Pow256(8) && k < |EntryBytes(u, c)|
    ensures ParseEntry(u, EntryBytes(u, c)[..k]) == Bad(Ending(k == 0 || k == 8))
  {
    var b := u.encode(c);
    var l := LittleEndian(|b|, 8);
    TakeCut(l, b, k);
    if k >= 8 {
      LittleEndianRoundTrip(|b|, 8);
      assert b + [] == b;
      TakeCut(b, [], k - 8);
    }
  }
}
