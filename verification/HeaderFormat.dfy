/**
 * Chain headers and entries and their binary form (header.go, entry.go). Hashing, gob,
 * time encoding and signing are calls into libraries: they are functions of a `Suite`.
 */
module HeaderFormat {
  import opened Collections
  import opened Wire

  type Content = string

  /** The times that have a binary form: an instant and a zone, in the 14 bytes behind a version byte. */
  type Time = t: int | 0 <= t < 0x1_0000_0000_0000_0000_0000_0000_0000

  /** The library functions the chain is built on. */
  datatype Suite = Suite(
    hash: Bytes -> Bytes,
    isHash: Bytes -> bool,              // what base58 text parses back to a hash
    encode: Content -> Bytes,
    decode: Bytes -> Option<Content>,
    encodeTime: Time -> Bytes,
    decodeTime: Bytes -> Time,
    sign: Bytes -> Option<Bytes>)

  const TIME_SIZE := 15

  /** Contents up to this length, the substitutes for omitted and private entries among them, have a short encoding. */
  const SHORT := 32

  ghost predicate Lawful(u: Suite) {
    && (forall b :: |u.hash(b)| == HASH_SIZE && u.hash(b)[0] != 0 && u.isHash(u.hash(b)))
    && (forall c :: u.decode(u.encode(c)) == Some(c))
    && (forall c :: |c| <= SHORT ==> |u.encode(c)| < Pow256(8))
    && (forall t :: |u.encodeTime(t)| == TIME_SIZE && u.decodeTime(u.encodeTime(t)) == t)
  }

  datatype Header = Header(
    typ: Bytes,
    time: Time,
    headerLink: Bytes,
    entryLink: Bytes,
    typeLink: Bytes,
    sig: Bytes,
    action: Bytes,
    changed: Option<Bytes>)             // none for a nil hash, which only a caller can bring in

  /** What the format can hold. */
  predicate Writable(h: Header) {
    && |h.typ| <= 255 && |h.sig| <= 255 && |h.action| <= 255
    && GoodHash(h.headerLink) && GoodHash(h.entryLink) && GoodHash(h.typeLink)
    && h.changed.Some? && GoodHash(h.changed.value)
  }

  /** `MarshalHeader` fails exactly on a nil hash. */
  predicate NoNil(h: Header) {
    h.changed.Some?
  }

  function ChangedBytes(h: Header): Bytes {
    if h.changed.Some? then HashBytes(h.changed.value) else []
  }

  function HeaderBytes(u: Suite, h: Header): Bytes {
    StrBytes(h.typ) + (u.encodeTime(h.time) + (HashBytes(h.headerLink) + (HashBytes(h.entryLink)
    + (HashBytes(h.typeLink) + (StrBytes(h.sig) + (StrBytes(h.action) + (ChangedBytes(h) + Zeros(8))))))))
  }

  function ParseHeader(u: Suite, s: Bytes): Parsed<Header> {
    match ParseStr(s) case Bad(e) => Bad(e) case Ok(typ, s1) =>
    match TakeBytes(TIME_SIZE, s1) case Bad(e) => Bad(e) case Ok(time, s2) =>
    match ParseHash(s2) case Bad(e) => Bad(e) case Ok(headerLink, s3) =>
    match ParseHash(s3) case Bad(e) => Bad(e) case Ok(entryLink, s4) =>
    match ParseHash(s4) case Bad(e) => Bad(e) case Ok(typeLink, s5) =>
    match ParseStr(s5) case Bad(e) => Bad(e) case Ok(sig, s6) =>
    match ParseStr(s6) case Bad(e) => Bad(e) case Ok(action, s7) =>
    match ParseHash(s7) case Bad(e) => Bad(e) case Ok(changed, s8) =>
    match TakeBytes(8, s8) case Bad(e) => Bad(e) case Ok(_, rest) =>
      Ok(Header(typ, u.decodeTime(time), headerLink, entryLink, typeLink, sig, action, Some(changed)), rest)
  }

  function EntryBytes(u: Suite, c: Content): Bytes {
    LittleEndian(|u.encode(c)|, 8) + u.encode(c)
  }

  function ParseEntry(u: Suite, s: Bytes): Parsed<Content> {
    match ParseU64(s) case Bad(e) => Bad(e) case Ok(l, s1) =>
    match TakeBytes(l, s1) case Bad(e) => Bad(e) case Ok(b, rest) =>
      if u.decode(b).Some? then Ok(u.decode(b).value, rest) else Bad(BadEntry)
  }

  // ---------- what stands where ----------

  /** The bytes `part` stand at position `i`. */
  predicate Holds(b: Bytes, i: nat, part: Bytes) {
    i + |part| <= |b| && b[i..i + |part|] == part
  }

  lemma Peel(b: Bytes, i: nat, part: Bytes, rest: Bytes)
    requires i <= |b| && b[i..] == part + rest
    ensures Holds(b, i, part) && b[i + |part|..] == rest
  {
    var s := b[i..];
    assert s[..|part|] == part && s[|part|..] == rest;
    assert b[i..i + |part|] == s[..|part|] && b[i + |part|..] == s[|part|..];
  }

  /** The fields of a header at their places, the two links to headers around the link to the entry. */
  lemma HeaderLayout(u: Suite, h: Header)
    requires Lawful(u) && Writable(h)
    ensures var b, t, g, a := HeaderBytes(u, h), |h.typ|, |h.sig|, |h.action|;
            && Holds(b, 0, [t]) && Holds(b, 1, h.typ) && Holds(b, 1 + t, u.encodeTime(h.time))
            && Holds(b, 16 + t, HashBytes(h.headerLink)) && Holds(b, 50 + t, HashBytes(h.entryLink))
            && Holds(b, 84 + t, HashBytes(h.typeLink)) && Holds(b, 118 + t, [g]) && Holds(b, 119 + t, h.sig)
            && Holds(b, 119 + t + g, [a]) && Holds(b, 120 + t + g, h.action)
            && Holds(b, 120 + t + g + a, HashBytes(h.changed.value)) && Holds(b, 154 + t + g + a, Zeros(8))
            && |b| == 162 + t + g + a
  {
    HashLength(h.headerLink);
    HashLength(h.entryLink);
    HashLength(h.typeLink);
    HashLength(h.changed.value);
    Pieces(HeaderBytes(u, h), h.typ, u.encodeTime(h.time), HashBytes(h.headerLink), HashBytes(h.entryLink),
           HashBytes(h.typeLink), h.sig, h.action, HashBytes(h.changed.value), Zeros(8));
  }

  lemma HashLength(h: Bytes)
    requires GoodHash(h)
    ensures |HashBytes(h)| == HASH_SIZE
  {
  }

  lemma Pieces(b: Bytes, typ: Bytes, time: Bytes, l0: Bytes, l1: Bytes, l2: Bytes, sig: Bytes, action: Bytes, l3: Bytes,
               end: Bytes)
    requires |l0| == |l1| == |l2| == |l3| == HASH_SIZE && |time| == TIME_SIZE
    requires |typ| <= 255 && |sig| <= 255 && |action| <= 255
    requires b == StrBytes(typ) + (time + (l0 + (l1 + (l2 + (StrBytes(sig) + (StrBytes(action)
                  + (l3 + end)))))))
    ensures var t, g, a := |typ|, |sig|, |action|;
            && Holds(b, 0, [t]) && Holds(b, 1, typ) && Holds(b, 1 + t, time) && Holds(b, 16 + t, l0)
            && Holds(b, 50 + t, l1) && Holds(b, 84 + t, l2) && Holds(b, 118 + t, [g])
            && Holds(b, 119 + t, sig) && Holds(b, 119 + t + g, [a]) && Holds(b, 120 + t + g, action)
            && Holds(b, 120 + t + g + a, l3) && Holds(b, 154 + t + g + a, end)
            && |b| == 154 + t + g + a + |end|
  {
    var t, g, a := |typ|, |sig|, |action|;
    var s4 := StrBytes(sig) + (StrBytes(action) + (l3 + end));
    var s1 := l0 + (l1 + (l2 + s4));
    assert b[0..] == b;
    PeelStr(b, 0, typ, time + s1);
    Peel(b, 1 + t, time, s1);
    PeelLinks(b, 16 + t, l0, l1, l2, s4);
    PeelStr(b, 118 + t, sig, StrBytes(action) + (l3 + end));
    PeelStr(b, 119 + t + g, action, l3 + end);
    Peel(b, 120 + t + g + a, l3, end);
    Peel(b, 154 + t + g + a, end, []);
  }

  lemma PeelLinks(b: Bytes, i: nat, l0: Bytes, l1: Bytes, l2: Bytes, rest: Bytes)
    requires |l0| == |l1| == |l2| == HASH_SIZE
    requires i <= |b| && b[i..] == l0 + (l1 + (l2 + rest))
    ensures Holds(b, i, l0) && Holds(b, i + 34, l1) && Holds(b, i + 68, l2)
    ensures b[i + 102..] == rest
  {
    Peel(b, i, l0, l1 + (l2 + rest));
    Peel(b, i + 34, l1, l2 + rest);
    Peel(b, i + 68, l2, rest);
  }

  lemma PeelStr(b: Bytes, i: nat, str: Bytes, rest: Bytes)
    requires |str| <= 255 && i <= |b| && b[i..] == StrBytes(str) + rest
    ensures Holds(b, i, [|str|]) && Holds(b, i + 1, str) && b[i + 1 + |str|..] == rest
  {
    assert StrBytes(str) + rest == [|str|] + (str + rest);
    Peel(b, i, [|str|], str + rest);
    Peel(b, i + 1, str, rest);
  }

  // ---------- round trips ----------

  lemma TakeRoundTrip(b: Bytes, rest: Bytes)
    ensures TakeBytes(|b|, b + rest) == Ok(b, rest)
  {
    assert (b + rest)[..|b|] == b && (b + rest)[|b|..] == rest;
  }

  lemma HeaderRoundTrip(u: Suite, h: Header, rest: Bytes)
    requires Lawful(u) && Writable(h)
    ensures ParseHeader(u, HeaderBytes(u, h) + rest) == Ok(h, rest)
  {
    var t := u.encodeTime(h.time);
    var b8 := Zeros(8) + rest;
    var b7 := ChangedBytes(h) + b8;
    var b6 := StrBytes(h.action) + b7;
    var b5 := StrBytes(h.sig) + b6;
    var b4 := HashBytes(h.typeLink) + b5;
    var b3 := HashBytes(h.entryLink) + b4;
    var b2 := HashBytes(h.headerLink) + b3;
    var b1 := t + b2;
    HeaderRegroup(u, h, rest);
    assert HeaderBytes(u, h) + rest == StrBytes(h.typ) + b1;
    StrRoundTrip(h.typ, b1);
    TakeRoundTrip(t, b2);
    HashRoundTrip(h.headerLink, b3);
    HashRoundTrip(h.entryLink, b4);
    HashRoundTrip(h.typeLink, b5);
    StrRoundTrip(h.sig, b6);
    StrRoundTrip(h.action, b7);
    HashRoundTrip(h.changed.value, b8);
    TakeRoundTrip(Zeros(8), rest);
  }

  lemma Assoc(a: Bytes, b: Bytes, c: Bytes)
    ensures (a + b) + c == a + (b + c)
  {
  }

  lemma HeaderRegroup(u: Suite, h: Header, rest: Bytes)
    ensures HeaderBytes(u, h) + rest ==
            StrBytes(h.typ) + (u.encodeTime(h.time) + (HashBytes(h.headerLink) + (HashBytes(h.entryLink)
            + (HashBytes(h.typeLink) + (StrBytes(h.sig) + (StrBytes(h.action)
            + (ChangedBytes(h) + (Zeros(8) + rest))))))))
  {
    var b7 := ChangedBytes(h) + Zeros(8);
    var b6 := StrBytes(h.action) + b7;
    var b5 := StrBytes(h.sig) + b6;
    var b4 := HashBytes(h.typeLink) + b5;
    var b3 := HashBytes(h.entryLink) + b4;
    var b2 := HashBytes(h.headerLink) + b3;
    var b1 := u.encodeTime(h.time) + b2;
    Assoc(StrBytes(h.typ), b1, rest);
    Assoc(u.encodeTime(h.time), b2, rest);
    Assoc(HashBytes(h.headerLink), b3, rest);
    Assoc(HashBytes(h.entryLink), b4, rest);
    Assoc(HashBytes(h.typeLink), b5, rest);
    Assoc(StrBytes(h.sig), b6, rest);
    Assoc(StrBytes(h.action), b7, rest);
    Assoc(ChangedBytes(h), Zeros(8), rest);
  }

  /** A header is read back as it was written exactly when the format can hold it. */
  lemma HeaderReadBackIffWritable(u: Suite, h: Header, rest: Bytes)
    requires Lawful(u)
    ensures ParseHeader(u, HeaderBytes(u, h) + rest) == Ok(h, rest) <==> Writable(h)
  {
    if Writable(h) {
      HeaderRoundTrip(u, h, rest);
    } else if ParseHeader(u, HeaderBytes(u, h) + rest).Ok? {
      ParsedIsWritable(u, HeaderBytes(u, h) + rest);
    }
  }

  /** What was read can be written. */
  lemma ParsedIsWritable(u: Suite, s: Bytes)
    requires ParseHeader(u, s).Ok?
    ensures Writable(ParseHeader(u, s).value)
  {
  }

  /** Two headers the format can hold have the same bytes only if they are the same. */
  lemma HeaderBytesInjective(u: Suite, h: Header, k: Header)
    requires Lawful(u) && Writable(h) && Writable(k) && HeaderBytes(u, h) == HeaderBytes(u, k)
    ensures h == k
  {
    HeaderRoundTrip(u, h, []);
    HeaderRoundTrip(u, k, []);
  }

  /** An entry is read back as it was written exactly when its length fits the eight bytes for it. */
  lemma EntryReadBackIff(u: Suite, c: Content, rest: Bytes)
    requires Lawful(u)
    ensures ParseEntry(u, EntryBytes(u, c) + rest) == Ok(c, rest) <==> |u.encode(c)| < Pow256(8)
  {
    var b := u.encode(c);
    Assoc(LittleEndian(|b|, 8), b, rest);
    U64Wraps(|b|, b + rest);
    if |b| < Pow256(8) {
      TakeRoundTrip(b, rest);
    } else {
      TakeLess(AsU64(|b|), b, rest);
    }
  }

  lemma TakeLess(l: nat, b: Bytes, rest: Bytes)
    requires l < |b|
    ensures TakeBytes(l, b + rest).Ok? && |TakeBytes(l, b + rest).rest| > |rest|
  {
  }

  // ---------- more bytes behind a header change nothing ----------

  lemma HeaderExtends(u: Suite, s: Bytes, t: Bytes)
    requires ParseHeader(u, s).Ok?
    ensures ParseHeader(u, s + t) == Ok(ParseHeader(u, s).value, ParseHeader(u, s).rest + t)
  {
    StrExtends(s, t);
    var s1 := ParseStr(s).rest;
    TakeExtends(TIME_SIZE, s1, t);
    var s2 := TakeBytes(TIME_SIZE, s1).rest;
    HashExtends(s2, t);
    var s3 := ParseHash(s2).rest;
    HashExtends(s3, t);
    var s4 := ParseHash(s3).rest;
    HashExtends(s4, t);
    var s5 := ParseHash(s4).rest;
    StrExtends(s5, t);
    var s6 := ParseStr(s5).rest;
    StrExtends(s6, t);
    var s7 := ParseStr(s6).rest;
    HashExtends(s7, t);
    TakeExtends(8, ParseHash(s7).rest, t);
  }

  // ---------- stream methods ----------

  /** Fields go out one after the other; a nil hash stops the header part way. */
  method MarshalHeader(u: Suite, w: Stream, h: Header) returns (ok: bool)
    modifies w
    ensures ok <==> NoNil(h)
    ensures ok ==> w.data == old(w.data) + HeaderBytes(u, h)
    ensures old(w.data) <= w.data
  {
    WriteStr(w, h.typ);
    w.Write(u.encodeTime(h.time));
    ok := MarshalHash(w, Some(h.headerLink));
    ok := MarshalHash(w, Some(h.entryLink));
    ok := MarshalHash(w, Some(h.typeLink));
    WriteStr(w, h.sig);
    WriteStr(w, h.action);
    ok := MarshalHash(w, h.changed);
    if !ok { return; }
    w.Write(Zeros(8));
    Fields(old(w.data), StrBytes(h.typ), u.encodeTime(h.time), HashBytes(h.headerLink), HashBytes(h.entryLink),
           HashBytes(h.typeLink), StrBytes(h.sig), StrBytes(h.action), ChangedBytes(h), Zeros(8));
  }

  lemma Fields(w: Bytes, a: Bytes, b: Bytes, c: Bytes, d: Bytes, e: Bytes, f: Bytes, g: Bytes, h: Bytes, i: Bytes)
    ensures w + a + b + c + d + e + f + g + h + i
            == w + (a + (b + (c + (d + (e + (f + (g + (h + i))))))))
  {
    assert f + (g + (h + i)) == f + g + h + i;
    assert c + (d + (e + (f + g + h + i))) == c + d + e + f + g + h + i;
    assert a + (b + (c + d + e + f + g + h + i)) == a + b + c + d + e + f + g + h + i;
  }

  method UnmarshalHeader(u: Suite, r: Stream) returns (res: Result<Header>)
    modifies r
    ensures Follows(ParseHeader(u, old(r.data)), res, r.data)
  {
    var typ := ReadStr(r);
    if typ.Failure? { return Failure(typ.error); }
    var time := r.Read(TIME_SIZE);
    if time.Failure? { return Failure(time.error); }
    var headerLink := UnmarshalHash(r);
    if headerLink.Failure? { return Failure(headerLink.error); }
    var entryLink := UnmarshalHash(r);
    if entryLink.Failure? { return Failure(entryLink.error); }
    var typeLink := UnmarshalHash(r);
    if typeLink.Failure? { return Failure(typeLink.error); }
    var sig := ReadStr(r);
    if sig.Failure? { return Failure(sig.error); }
    var action := ReadStr(r);
    if action.Failure? { return Failure(action.error); }
    var changed := UnmarshalHash(r);
    if changed.Failure? { return Failure(changed.error); }
    var z := r.Read(8);
    if z.Failure? { return Failure(z.error); }
    return Success(Header(typ.value, u.decodeTime(time.value), headerLink.value, entryLink.value,
                          typeLink.value, sig.value, action.value, Some(changed.value)));
  }

  method MarshalEntry(u: Suite, w: Stream, c: Content)
    modifies w
    ensures w.data == old(w.data) + EntryBytes(u, c)
  {
    var b := u.encode(c);
    WriteU64(w, |b|);
    w.Write(b);
  }

  method UnmarshalEntry(u: Suite, r: Stream) returns (res: Result<Content>)
    modifies r
    ensures Follows(ParseEntry(u, old(r.data)), res, r.data)
  {
    var l := ReadU64(r);
    if l.Failure? { return Failure(l.error); }
    var b := r.Read(l.value);
    if b.Failure? { return Failure(b.error); }
    match u.decode(b.value) {
      case Some(c) => return Success(c);
      case None => return Failure(BadEntry);
    }
  }
}
