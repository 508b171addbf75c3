/**
 * Chains on the wire (chain.go): writing a selection of header and entry pairs under flags,
 * reading it back, and exactly when that gives what was selected.
 */
module ChainCodec {
  import opened Collections
  import opened Wire
  import opened HeaderFormat
  import opened HeaderCut
  import opened ChainFormat
  import opened Chain

  const NO_HEADERS := 1
  const NO_ENTRIES := 2
  const OMIT_DNA := 4

  const REDACTED: Content := "%%PRIVATE ENTRY REDACTED%%"

  predicate HasFlag(flags: nat, bit: nat)
    requires bit > 0
  {
    flags / bit % 2 == 1
  }

  /** A header and an entry, either of which the flags may leave out. */
  datatype Pair = Pair(header: Option<Header>, entry: Option<Content>)

  predicate Conforms(p: Pair, flags: nat) {
    (p.header.None? <==> HasFlag(flags, NO_HEADERS)) && (p.entry.None? <==> HasFlag(flags, NO_ENTRIES))
  }

  ghost predicate AllConform(ps: seq<Pair>, flags: nat) {
    forall i :: 0 <= i < |ps| ==> Conforms(ps[i], flags)
  }

  // ---------- writing ----------

  function PairBytes(f: Format, p: Pair): Bytes {
    (if p.header.Some? then f.headerBytes(p.header.value) else [])
    + (if p.entry.Some? then f.entryBytes(p.entry.value) else [])
  }

  function PairsBytes(f: Format, ps: seq<Pair>): Bytes {
    if ps == [] then [] else PairBytes(f, ps[0]) + PairsBytes(f, ps[1..])
  }

  predicate FilterPass(h: Header, whitelist: seq<Bytes>, blacklist: seq<Bytes>) {
    (whitelist == [] || h.typ in whitelist) && h.typ !in blacklist
  }

  /** The first pair is always written; the others when the whitelist lets them through. */
  predicate Chosen(v: Value, i: nat, whitelist: seq<Bytes>)
    requires i < |v.headers|
  {
    i == 0 || FilterPass(v.headers[i], whitelist, [])
  }

  function PairAt(v: Value, i: nat, flags: nat, whitelist: seq<Bytes>, private: seq<Bytes>): Pair
    requires i < |v.headers| == |v.entries|
  {
    var e := if !FilterPass(v.headers[i], whitelist, private) then Some(REDACTED)
             else if HasFlag(flags, NO_ENTRIES) then None
             else if i == 0 && HasFlag(flags, OMIT_DNA) then Some("")
             else Some(v.entries[i]);
    Pair(if HasFlag(flags, NO_HEADERS) then None else Some(v.headers[i]), e)
  }

  /** The pairs chosen among the first `n`, in order. */
  function Select(v: Value, n: nat, flags: nat, whitelist: seq<Bytes>, private: seq<Bytes>): seq<Pair>
    requires n <= |v.headers| == |v.entries|
  {
    if n == 0 then []
    else Select(v, n - 1, flags, whitelist, private)
         + (if Chosen(v, n - 1, whitelist) then [PairAt(v, n - 1, flags, whitelist, private)] else [])
  }

  /** The position of the last header chosen. */
  function LastChosen(v: Value, n: nat, whitelist: seq<Bytes>): (k: nat)
    requires n <= |v.headers|
    ensures n > 0 ==> k < n
  {
    if n == 0 then 0 else if Chosen(v, n - 1, whitelist) then n - 1 else LastChosen(v, n - 1, whitelist)
  }

  function ChainBytes(f: Format, v: Value, flags: nat, whitelist: seq<Bytes>, private: seq<Bytes>): Bytes
    requires |v.headers| == |v.entries|
    requires HasFlag(flags, NO_HEADERS) || LastChosen(v, |v.headers|, whitelist) < |v.hashes|
  {
    var ps := Select(v, |v.headers|, flags, whitelist, private);
    LittleEndian(flags, 8) + (LittleEndian(|ps|, 8) + (PairsBytes(f, ps)
      + (if HasFlag(flags, NO_HEADERS) then [] else HashBytes(v.hashes[LastChosen(v, |v.headers|, whitelist)]))))
  }

  // ---------- reading ----------

  function ParsePair(f: Format, flags: nat, s: Bytes): Parsed<Pair> {
    if HasFlag(flags, NO_HEADERS) then ParsePairEntry(f, flags, None, s)
    else match f.readHeader(s)
      case Bad(e) => Bad(e)
      case Ok(h, rest) => ParsePairEntry(f, flags, Some(h), rest)
  }

  function ParsePairEntry(f: Format, flags: nat, h: Option<Header>, s: Bytes): Parsed<Pair> {
    if HasFlag(flags, NO_ENTRIES) then Ok(Pair(h, None), s)
    else match f.readEntry(s)
      case Bad(e) => Bad(e)
      case Ok(c, rest) => Ok(Pair(h, Some(c)), rest)
  }

  function ParsePairs(f: Format, flags: nat, n: nat, s: Bytes): Parsed<seq<Pair>> {
    if n == 0 then Ok([], s)
    else match ParsePair(f, flags, s)
      case Bad(e) => Bad(e)
      case Ok(p, rest) =>
        match ParsePairs(f, flags, n - 1, rest)
        case Bad(e) => Bad(e)
        case Ok(ps, rest') => Ok([p] + ps, rest')
  }

  /** A hash goes through its text form; text that is no hash leaves an empty one. */
  function Reparse(f: Format, h: Bytes): Bytes {
    if f.isHash(h) then h else []
  }

  /** `addPair`: the hash of a header is taken from the next one's link. */
  function AddPair(f: Format, v: Value, p: Pair, i: nat): Value {
    var v1 := match p.header
      case None => v
      case Some(h) =>
        v.(hashes := if i > 0 then v.hashes + [Reparse(f, h.headerLink)] else v.hashes,
           hmap := if i > 0 then v.hmap[h.headerLink := i - 1] else v.hmap,
           headers := v.headers + [h],
           typeTops := v.typeTops[h.typ := i],
           emap := v.emap[h.entryLink := i]);
    if p.entry.Some? then v1.(entries := v1.entries + [p.entry.value]) else v1
  }

  function AddPairs(f: Format, ps: seq<Pair>): Value {
    if ps == [] then EMPTY else AddPair(f, AddPairs(f, ps[..|ps| - 1]), ps[|ps| - 1], |ps| - 1)
  }

  /** The hash of the last header comes on its own. */
  function Finish(v: Value, hash: Bytes, n: nat): Value {
    v.(hashes := v.hashes + [hash], hmap := v.hmap[hash := n - 1])
  }

  function ParseChain(f: Format, s: Bytes): Parsed<(nat, Value)> {
    match ParseU64(s) case Bad(e) => Bad(e) case Ok(flags, s1) =>
    match ParseU64(s1) case Bad(e) => Bad(e) case Ok(l, s2) =>
    var n := if AsInt64(l) < 0 then 0 else AsInt64(l);
    match ParsePairs(f, flags, n, s2) case Bad(e) => Bad(e) case Ok(ps, s3) =>
    if HasFlag(flags, NO_HEADERS) then Ok((flags, AddPairs(f, ps)), s3)
    else match ParseHash(s3) case Bad(e) => Bad(e) case Ok(h, rest) =>
      Ok((flags, Finish(AddPairs(f, ps), h, n)), rest)
  }

  // ---------- round trip ----------

  /** The format can hold the headers and the entries. */
  ghost predicate Fits(f: Format, v: Value) {
    && (forall i :: 0 <= i < |v.headers| ==> Writable(v.headers[i]))
    && (forall i :: 0 <= i < |v.entries| ==> Storable(f, v.entries[i]))
  }

  ghost predicate EntriesFit(f: Format, v: Value) {
    forall i :: 0 <= i < |v.entries| ==> Storable(f, v.entries[i])
  }

  /** As far as headers are written, the format can hold them and the hash of the last one. */
  predicate HeadersFit(v: Value, flags: nat, whitelist: seq<Bytes>)
    requires 0 < |v.headers| == |v.hashes|
  {
    !HasFlag(flags, NO_HEADERS) ==>
      && (forall i :: 0 <= i < |v.headers| && Chosen(v, i, whitelist) ==> Writable(v.headers[i]))
      && GoodHash(v.hashes[LastChosen(v, |v.headers|, whitelist)])
  }

  ghost predicate PairFits(f: Format, p: Pair) {
    (p.header.Some? ==> Writable(p.header.value)) && (p.entry.Some? ==> Storable(f, p.entry.value))
  }

  ghost predicate Sendable(f: Format, ps: seq<Pair>, flags: nat) {
    forall i :: 0 <= i < |ps| ==> Conforms(ps[i], flags) && PairFits(f, ps[i])
  }

  lemma PairRoundTrip(f: Format, flags: nat, p: Pair, rest: Bytes)
    requires ChainFormat.Lawful(f) && Conforms(p, flags) && PairFits(f, p)
    ensures ParsePair(f, flags, PairBytes(f, p) + rest) == Ok(p, rest)
  {
    var e := if p.entry.Some? then f.entryBytes(p.entry.value) else [];
    EntryPart(f, flags, p, e, rest);
    if p.header.Some? {
      assert HeaderLaw(f, p.header.value);
      Assoc(f.headerBytes(p.header.value), e, rest);
    } else {
      assert PairBytes(f, p) + rest == e + rest;
    }
  }

  lemma EntryPart(f: Format, flags: nat, p: Pair, e: Bytes, rest: Bytes)
    requires EntryLaws(f) && Conforms(p, flags) && PairFits(f, p)
             && e == if p.entry.Some? then f.entryBytes(p.entry.value) else []
    ensures ParsePairEntry(f, flags, p.header, e + rest) == Ok(p, rest)
  {
    if p.entry.None? { assert e + rest == rest; } else { assert EntryLaw(f, p.entry.value); }
  }

  lemma {:induction false} PairsRoundTrip(f: Format, flags: nat, ps: seq<Pair>, rest: Bytes)
    requires ChainFormat.Lawful(f) && Sendable(f, ps, flags)
    ensures ParsePairs(f, flags, |ps|, PairsBytes(f, ps) + rest) == Ok(ps, rest)
  {
    if ps == [] {
      assert [] + rest == rest;
    } else {
      Assoc(PairBytes(f, ps[0]), PairsBytes(f, ps[1..]), rest);
      PairRoundTrip(f, flags, ps[0], PairsBytes(f, ps[1..]) + rest);
      PairsRoundTrip(f, flags, ps[1..], rest);
      assert ps == [ps[0]] + ps[1..];
    }
  }

  /** No private entry is redacted into a stream that has no entries. */
  ghost predicate NoClash(v: Value, flags: nat, whitelist: seq<Bytes>, private: seq<Bytes>) {
    HasFlag(flags, NO_ENTRIES) ==>
      forall i :: 0 <= i < |v.headers| && Chosen(v, i, whitelist) ==> FilterPass(v.headers[i], whitelist, private)
  }

  lemma PairAtSendable(f: Format, v: Value, i: nat, flags: nat, whitelist: seq<Bytes>, private: seq<Bytes>)
    requires i < |v.headers| == |v.entries| && Chosen(v, i, whitelist) && NoClash(v, flags, whitelist, private)
    requires EntryLaws(f) && EntriesFit(f, v) && (HasFlag(flags, NO_HEADERS) || Writable(v.headers[i]))
    ensures var p := PairAt(v, i, flags, whitelist, private); Conforms(p, flags) && PairFits(f, p)
  {
    assert EntryLaw(f, "") && EntryLaw(f, REDACTED);
  }

  lemma {:induction false} SelectSendable(f: Format, v: Value, n: nat, flags: nat, whitelist: seq<Bytes>,
                                          private: seq<Bytes>)
    requires n <= |v.headers| == |v.entries| == |v.hashes| && NoClash(v, flags, whitelist, private) && v.headers != []
    requires EntryLaws(f) && EntriesFit(f, v) && HeadersFit(v, flags, whitelist)
    ensures Sendable(f, Select(v, n, flags, whitelist, private), flags)
    ensures |Select(v, n, flags, whitelist, private)| <= n
  {
    if n > 0 {
      SelectSendable(f, v, n - 1, flags, whitelist, private);
      if Chosen(v, n - 1, whitelist) { PairAtSendable(f, v, n - 1, flags, whitelist, private); }
    }
  }

  /** What `UnmarshalChain` makes of the selected pairs. */
  function Rebuilt(f: Format, v: Value, flags: nat, whitelist: seq<Bytes>, private: seq<Bytes>): Value
    requires 0 < |v.headers| == |v.entries| == |v.hashes|
  {
    var ps := Select(v, |v.headers|, flags, whitelist, private);
    if HasFlag(flags, NO_HEADERS) then AddPairs(f, ps)
    else Finish(AddPairs(f, ps), v.hashes[LastChosen(v, |v.headers|, whitelist)], |ps|)
  }

  lemma ChainRoundTrip(f: Format, v: Value, flags: nat, whitelist: seq<Bytes>, private: seq<Bytes>, rest: Bytes)
    requires ChainFormat.Lawful(f) && 0 < |v.headers| == |v.entries| == |v.hashes|
             && NoClash(v, flags, whitelist, private)
    requires EntriesFit(f, v) && HeadersFit(v, flags, whitelist)
    requires flags < Pow256(8) && |v.headers| < Pow256(8) / 2
    ensures ParseChain(f, ChainBytes(f, v, flags, whitelist, private) + rest)
            == Ok((flags, Rebuilt(f, v, flags, whitelist, private)), rest)
  {
    var ps := Select(v, |v.headers|, flags, whitelist, private);
    var last := v.hashes[LastChosen(v, |v.headers|, whitelist)];
    var tail := if HasFlag(flags, NO_HEADERS) then [] else HashBytes(last);
    SelectSendable(f, v, |v.headers|, flags, whitelist, private);
    StreamHead(f, flags, ps, tail, rest);
    PairsRoundTrip(f, flags, ps, tail + rest);
    if HasFlag(flags, NO_HEADERS) {
      assert tail + rest == rest;
    } else {
      HashRoundTrip(last, rest);
    }
  }

  // ---------- exactly when a stream is read back ----------

  /** The pairs the reader should find: without entries when the flags say so. */
  function Strip(ps: seq<Pair>, flags: nat): seq<Pair> {
    if HasFlag(flags, NO_ENTRIES) then seq(|ps|, i requires 0 <= i < |ps| => ps[i].(entry := None)) else ps
  }

  function Intended(f: Format, v: Value, flags: nat, whitelist: seq<Bytes>, private: seq<Bytes>): Value
    requires 0 < |v.headers| == |v.entries| == |v.hashes|
  {
    var ps := Strip(Select(v, |v.headers|, flags, whitelist, private), flags);
    if HasFlag(flags, NO_HEADERS) then AddPairs(f, ps)
    else Finish(AddPairs(f, ps), v.hashes[LastChosen(v, |v.headers|, whitelist)], |ps|)
  }

  function HeadersLength(hs: seq<Header>): nat {
    if hs == [] then 0 else HeaderLength(hs[0]) + HeadersLength(hs[1..])
  }

  function HeadersOf(ps: seq<Pair>): seq<Header> {
    if ps == [] then [] else (if ps[0].header.Some? then [ps[0].header.value] else []) + HeadersOf(ps[1..])
  }

  lemma HeadersCons(p: Pair, ps: seq<Pair>)
    ensures HeadersLength(HeadersOf([p] + ps))
            == (if p.header.Some? then HeaderLength(p.header.value) else 0) + HeadersLength(HeadersOf(ps))
  {
    assert ([p] + ps)[1..] == ps;
    if p.header.Some? {
      assert ([p.header.value] + HeadersOf(ps))[1..] == HeadersOf(ps);
    } else {
      assert [] + HeadersOf(ps) == HeadersOf(ps);
    }
  }

  lemma PairConsumes(f: Format, flags: nat, s: Bytes)
    requires ChainFormat.Lawful(f) && HasFlag(flags, NO_ENTRIES) && ParsePair(f, flags, s).Ok?
    ensures var p := ParsePair(f, flags, s);
            |s| == (if p.value.header.Some? then HeaderLength(p.value.header.value) else 0) + |p.rest|
  {
    assert HeaderReadLaw(f, s);
  }

  /** Reading without entries takes up the headers' bytes and no more. */
  lemma {:induction false} PairsConsume(f: Format, flags: nat, n: nat, s: Bytes)
    requires ChainFormat.Lawful(f) && HasFlag(flags, NO_ENTRIES) && ParsePairs(f, flags, n, s).Ok?
    ensures var p := ParsePairs(f, flags, n, s);
            |s| == HeadersLength(HeadersOf(p.value)) + |p.rest|
    decreases n
  {
    if n > 0 {
      var p := ParsePair(f, flags, s);
      PairConsumes(f, flags, s);
      PairsConsume(f, flags, n - 1, p.rest);
      HeadersCons(p.value, ParsePairs(f, flags, n - 1, p.rest).value);
    }
  }

  function EntriesOf(ps: seq<Pair>): seq<Content> {
    if ps == [] then [] else (if ps[0].entry.Some? then [ps[0].entry.value] else []) + EntriesOf(ps[1..])
  }

  lemma {:induction false} EntriesOfAppend(ps: seq<Pair>, p: Pair)
    ensures EntriesOf(ps + [p]) == EntriesOf(ps) + (if p.entry.Some? then [p.entry.value] else [])
  {
    if ps == [] {
      assert [p][1..] == [];
    } else {
      EntriesOfAppend(ps[1..], p);
      assert (ps + [p])[1..] == ps[1..] + [p];
    }
  }

  /** Headers and entries by position, when every pair has one. */
  lemma {:induction false} HeadersAt(ps: seq<Pair>)
    requires forall i :: 0 <= i < |ps| ==> ps[i].header.Some?
    ensures |HeadersOf(ps)| == |ps| && forall i :: 0 <= i < |ps| ==> HeadersOf(ps)[i] == ps[i].header.value
  {
    if ps != [] { HeadersAt(ps[1..]); }
  }

  lemma {:induction false} EntriesAt(ps: seq<Pair>)
    requires forall i :: 0 <= i < |ps| ==> ps[i].entry.Some?
    ensures |EntriesOf(ps)| == |ps| && forall i :: 0 <= i < |ps| ==> EntriesOf(ps)[i] == ps[i].entry.value
  {
    if ps != [] { EntriesAt(ps[1..]); }
  }

  lemma {:induction false} HeadersOfAppend(ps: seq<Pair>, p: Pair)
    ensures HeadersOf(ps + [p]) == HeadersOf(ps) + (if p.header.Some? then [p.header.value] else [])
  {
    if ps == [] {
      assert [p][1..] == [];
    } else {
      HeadersOfAppend(ps[1..], p);
      assert (ps + [p])[1..] == ps[1..] + [p];
    }
  }

  lemma {:induction false} AddPairsHeaders(f: Format, ps: seq<Pair>)
    ensures AddPairs(f, ps).headers == HeadersOf(ps)
  {
    if ps != [] {
      var n := |ps| - 1;
      AddPairsHeaders(f, ps[..n]);
      HeadersOfAppend(ps[..n], ps[n]);
      assert ps == ps[..n] + [ps[n]];
    }
  }

  ghost predicate AllWritable(ps: seq<Pair>) {
    forall i :: 0 <= i < |ps| && ps[i].header.Some? ==> Writable(ps[i].header.value)
  }

  ghost predicate SomeEntry(ps: seq<Pair>) {
    exists i :: 0 <= i < |ps| && ps[i].entry.Some?
  }

  lemma PairLength(f: Format, p: Pair)
    requires ChainFormat.Lawful(f) && (p.header.Some? ==> Writable(p.header.value))
    ensures |PairBytes(f, p)|
            >= (if p.header.Some? then HeaderLength(p.header.value) else 0) + (if p.entry.Some? then 8 else 0)
  {
    if p.header.Some? { assert HeaderLaw(f, p.header.value); }
    if p.entry.Some? { assert EntryLaw(f, p.entry.value); }
  }

  /** The pairs take at least their headers' bytes, and more if any has an entry. */
  lemma {:induction false} PairsLength(f: Format, ps: seq<Pair>)
    requires ChainFormat.Lawful(f) && AllWritable(ps)
    ensures |PairsBytes(f, ps)| >= HeadersLength(HeadersOf(ps))
    ensures SomeEntry(ps) ==> |PairsBytes(f, ps)| > HeadersLength(HeadersOf(ps))
  {
    if ps != [] {
      var rest := ps[1..];
      PairsLength(f, rest);
      assert ps == [ps[0]] + rest;
      HeadersCons(ps[0], rest);
      PairLength(f, ps[0]);
      if SomeEntry(ps) && ps[0].entry.None? {
        var i :| 0 <= i < |ps| && ps[i].entry.Some?;
        assert rest[i - 1].entry.Some?;
      }
    }
  }

  lemma {:induction false} StripHeaders(ps: seq<Pair>, flags: nat)
    ensures HeadersOf(Strip(ps, flags)) == HeadersOf(ps)
  {
    if ps != [] && HasFlag(flags, NO_ENTRIES) {
      StripHeaders(ps[1..], flags);
      assert Strip(ps, flags)[1..] == Strip(ps[1..], flags);
    }
  }

  lemma {:induction false} ClashSelected(v: Value, n: nat, flags: nat, whitelist: seq<Bytes>, private: seq<Bytes>,
                                         i: nat)
    requires i < n <= |v.headers| == |v.entries| && Chosen(v, i, whitelist)
    requires !FilterPass(v.headers[i], whitelist, private)
    ensures SomeEntry(Select(v, n, flags, whitelist, private))
  {
    var ps := Select(v, n, flags, whitelist, private);
    if i == n - 1 {
      assert ps[|ps| - 1].entry.Some?;
    } else {
      ClashSelected(v, n - 1, flags, whitelist, private, i);
      var before := Select(v, n - 1, flags, whitelist, private);
      var k :| 0 <= k < |before| && before[k].entry.Some?;
      assert ps[k].entry.Some?;
    }
  }

  /** The headers written are writable exactly when the chosen ones are. */
  lemma {:induction false} SelectWritable(v: Value, n: nat, flags: nat, whitelist: seq<Bytes>, private: seq<Bytes>)
    requires n <= |v.headers| == |v.entries|
    ensures AllWritable(Select(v, n, flags, whitelist, private)) <==>
            HasFlag(flags, NO_HEADERS) || forall i :: 0 <= i < n && Chosen(v, i, whitelist) ==> Writable(v.headers[i])
  {
    if n > 0 {
      SelectWritable(v, n - 1, flags, whitelist, private);
      var before := Select(v, n - 1, flags, whitelist, private);
      assert before + [] == before;
      if Chosen(v, n - 1, whitelist) { WritableAppend(before, PairAt(v, n - 1, flags, whitelist, private)); }
    }
  }

  lemma WritableAppend(ps: seq<Pair>, p: Pair)
    ensures AllWritable(ps + [p]) <==> AllWritable(ps) && (p.header.Some? ==> Writable(p.header.value))
  {
    if AllWritable(ps + [p]) {
      assert (ps + [p])[|ps|] == p;
      forall i | 0 <= i < |ps| && ps[i].header.Some? ensures Writable(ps[i].header.value) {
        assert (ps + [p])[i] == ps[i];
      }
    }
  }

  /** Whatever was read can be written. */
  lemma {:induction false} ParsedWritable(f: Format, flags: nat, n: nat, s: Bytes)
    requires ChainFormat.Lawful(f) && ParsePairs(f, flags, n, s).Ok?
    ensures AllWritable(ParsePairs(f, flags, n, s).value)
    decreases n
  {
    if n > 0 {
      var p := ParsePair(f, flags, s);
      assert HeaderReadLaw(f, s);
      ParsedWritable(f, flags, n - 1, p.rest);
    }
  }

  lemma {:induction false} WritableHeaders(ps: seq<Pair>)
    ensures AllWritable(ps) <==> CanWrite(HeadersOf(ps))
  {
    if ps != [] {
      WritableHeaders(ps[1..]);
      assert ps == [ps[0]] + ps[1..];
      WritableCons(ps[0], ps[1..]);
      if ps[0].header.Some? {
        CanWriteCons(ps[0].header.value, HeadersOf(ps[1..]));
        assert HeadersOf(ps) == [ps[0].header.value] + HeadersOf(ps[1..]);
      } else {
        assert HeadersOf(ps) == HeadersOf(ps[1..]);
      }
    }
  }

  lemma WritableCons(p: Pair, ps: seq<Pair>)
    ensures AllWritable([p] + ps) <==> (p.header.Some? ==> Writable(p.header.value)) && AllWritable(ps)
  {
    if AllWritable([p] + ps) {
      assert ([p] + ps)[0] == p;
      forall i | 0 <= i < |ps| && ps[i].header.Some? ensures Writable(ps[i].header.value) {
        assert ([p] + ps)[i + 1] == ps[i];
      }
    }
  }

  ghost predicate CanWrite(hs: seq<Header>) {
    forall i :: 0 <= i < |hs| ==> Writable(hs[i])
  }

  lemma CanWriteCons(h: Header, hs: seq<Header>)
    ensures CanWrite([h] + hs) <==> Writable(h) && CanWrite(hs)
  {
    var all := [h] + hs;
    assert all[0] == h && forall i :: 0 <= i < |hs| ==> all[i + 1] == hs[i];
  }

  /** With an entry among the bytes, headers read back in full leave bytes over. */
  lemma LeftOver(f: Format, flags: nat, ps: seq<Pair>, tail: Bytes)
    requires ChainFormat.Lawful(f) && HasFlag(flags, NO_ENTRIES) && AllWritable(ps) && SomeEntry(ps)
    requires ParsePairs(f, flags, |ps|, PairsBytes(f, ps) + tail).Ok?
    requires HeadersOf(ParsePairs(f, flags, |ps|, PairsBytes(f, ps) + tail).value) == HeadersOf(ps)
    ensures |ParsePairs(f, flags, |ps|, PairsBytes(f, ps) + tail).rest| > |tail|
  {
    PairsLength(f, ps);
    PairsConsume(f, flags, |ps|, PairsBytes(f, ps) + tail);
  }

  /** A redacted entry in a stream without entries throws the reader off. */
  lemma ClashLosesStream(f: Format, v: Value, flags: nat, whitelist: seq<Bytes>, private: seq<Bytes>, rest: Bytes)
    requires ChainFormat.Lawful(f) && 0 < |v.headers| == |v.entries| == |v.hashes|
             && !NoClash(v, flags, whitelist, private)
    requires EntriesFit(f, v) && HeadersFit(v, flags, whitelist)
    requires flags < Pow256(8) && |v.headers| < Pow256(8) / 2
    ensures ParseChain(f, ChainBytes(f, v, flags, whitelist, private) + rest)
            != Ok((flags, Intended(f, v, flags, whitelist, private)), rest)
  {
    var ps := Select(v, |v.headers|, flags, whitelist, private);
    var hash := v.hashes[LastChosen(v, |v.headers|, whitelist)];
    var tail := if HasFlag(flags, NO_HEADERS) then [] else HashBytes(hash);
    var body := PairsBytes(f, ps);
    var i :| 0 <= i < |v.headers| && Chosen(v, i, whitelist) && !FilterPass(v.headers[i], whitelist, private);
    ClashSelected(v, |v.headers|, flags, whitelist, private, i);
    SelectLength(v, |v.headers|, flags, whitelist, private);
    SelectWritable(v, |v.headers|, flags, whitelist, private);
    StreamHead(f, flags, ps, tail, rest);
    var parsed := ParsePairs(f, flags, |ps|, body + (tail + rest));
    if parsed.Ok? && HeadersOf(parsed.value) == HeadersOf(ps) {
      LeftOver(f, flags, ps, tail + rest);
    }
    if parsed.Ok? {
      AddPairsHeaders(f, parsed.value);
      AddPairsHeaders(f, Strip(ps, flags));
      StripHeaders(ps, flags);
    }
  }

  /** Reading past the flags and the count. */
  lemma StreamHead(f: Format, flags: nat, ps: seq<Pair>, tail: Bytes, rest: Bytes)
    requires flags < Pow256(8) && |ps| < Pow256(8) / 2
    ensures var s := LittleEndian(flags, 8) + (LittleEndian(|ps|, 8) + (PairsBytes(f, ps) + tail)) + rest;
            var parsed := ParsePairs(f, flags, |ps|, PairsBytes(f, ps) + (tail + rest));
            ParseChain(f, s) ==
              if parsed.Bad? then Bad(parsed.error)
              else if HasFlag(flags, NO_HEADERS) then Ok((flags, AddPairs(f, parsed.value)), parsed.rest)
              else if ParseHash(parsed.rest).Bad? then Bad(ParseHash(parsed.rest).error)
              else Ok((flags, Finish(AddPairs(f, parsed.value), ParseHash(parsed.rest).value, |ps|)),
                      ParseHash(parsed.rest).rest)
  {
    var body := PairsBytes(f, ps);
    Assoc(LittleEndian(flags, 8), LittleEndian(|ps|, 8) + (body + tail), rest);
    Assoc(LittleEndian(|ps|, 8), body + tail, rest);
    Assoc(body, tail, rest);
    U64RoundTrip(flags, LittleEndian(|ps|, 8) + (body + (tail + rest)));
    U64RoundTrip(|ps|, body + (tail + rest));
  }

  lemma {:induction false} SelectLength(v: Value, n: nat, flags: nat, whitelist: seq<Bytes>, private: seq<Bytes>)
    requires n <= |v.headers| == |v.entries|
    ensures |Select(v, n, flags, whitelist, private)| <= n
  {
    if n > 0 { SelectLength(v, n - 1, flags, whitelist, private); }
  }

  lemma StripSendable(f: Format, ps: seq<Pair>, flags: nat)
    requires Sendable(f, ps, flags)
    ensures Strip(ps, flags) == ps
  {
    if HasFlag(flags, NO_ENTRIES) {
      forall i | 0 <= i < |ps|
        ensures ps[i].(entry := None) == ps[i]
      {
        assert Conforms(ps[i], flags);
      }
    }
  }

  /** What the format cannot hold is not read back. */
  lemma UnfitLosesStream(f: Format, v: Value, flags: nat, whitelist: seq<Bytes>, private: seq<Bytes>, rest: Bytes)
    requires ChainFormat.Lawful(f) && 0 < |v.headers| == |v.entries| == |v.hashes| && !HeadersFit(v, flags, whitelist)
    requires flags < Pow256(8) && |v.headers| < Pow256(8) / 2
    ensures ParseChain(f, ChainBytes(f, v, flags, whitelist, private) + rest)
            != Ok((flags, Intended(f, v, flags, whitelist, private)), rest)
  {
    var ps := Select(v, |v.headers|, flags, whitelist, private);
    var hash := v.hashes[LastChosen(v, |v.headers|, whitelist)];
    SelectLength(v, |v.headers|, flags, whitelist, private);
    SelectWritable(v, |v.headers|, flags, whitelist, private);
    StreamHead(f, flags, ps, HashBytes(hash), rest);
    var parsed := ParsePairs(f, flags, |ps|, PairsBytes(f, ps) + (HashBytes(hash) + rest));
    if parsed.Ok? && ParseHash(parsed.rest).Ok? {
      ParsedWritable(f, flags, |ps|, PairsBytes(f, ps) + (HashBytes(hash) + rest));
      Unfit(f, ps, Strip(ps, flags), parsed.value, hash, ParseHash(parsed.rest).value, flags);
    }
  }

  lemma Unfit(f: Format, ps: seq<Pair>, stripped: seq<Pair>, parsed: seq<Pair>, hash: Bytes, read: Bytes, flags: nat)
    requires stripped == Strip(ps, flags) && AllWritable(parsed) && GoodHash(read)
    requires !(AllWritable(ps) && GoodHash(hash))
    ensures Finish(AddPairs(f, parsed), read, |ps|) != Finish(AddPairs(f, stripped), hash, |stripped|)
  {
    AddPairsHeaders(f, parsed);
    AddPairsHeaders(f, stripped);
    StripHeaders(ps, flags);
    WritableHeaders(ps);
    WritableHeaders(parsed);
    LastHash(AddPairs(f, parsed).hashes, read, AddPairs(f, stripped).hashes, hash);
  }

  lemma LastHash(a: seq<Bytes>, x: Bytes, b: seq<Bytes>, y: Bytes)
    ensures a + [x] == b + [y] ==> x == y
  {
    assert (a + [x])[|a|] == x && (b + [y])[|b|] == y;
  }

  /**
   * The chain is read back as selected exactly when the format can hold the chosen headers and
   * no redaction meets a stream without entries.
   */
  lemma ChainReadBackIff(f: Format, v: Value, flags: nat, whitelist: seq<Bytes>, private: seq<Bytes>, rest: Bytes)
    requires ChainFormat.Lawful(f) && 0 < |v.headers| == |v.entries| == |v.hashes| && EntriesFit(f, v)
    requires flags < Pow256(8) && |v.headers| < Pow256(8) / 2
    ensures ParseChain(f, ChainBytes(f, v, flags, whitelist, private) + rest)
            == Ok((flags, Intended(f, v, flags, whitelist, private)), rest)
            <==> HeadersFit(v, flags, whitelist) && NoClash(v, flags, whitelist, private)
  {
    if !HeadersFit(v, flags, whitelist) {
      UnfitLosesStream(f, v, flags, whitelist, private, rest);
    } else if NoClash(v, flags, whitelist, private) {
      ChainRoundTrip(f, v, flags, whitelist, private, rest);
      SelectSendable(f, v, |v.headers|, flags, whitelist, private);
      StripSendable(f, Select(v, |v.headers|, flags, whitelist, private), flags);
    } else {
      ClashLosesStream(f, v, flags, whitelist, private, rest);
    }
  }
}
