/**
 * What the hash links and the formats give together: a chain read back is the chain
 * that was written, and the last hash pins every header and entry before it.
 */
module ChainTheorems {
  import opened Collections
  import opened Wire
  import opened HeaderFormat
  import opened ChainFormat
  import opened Chain
  import opened ChainCodec

  function Zip(hs: seq<Header>, cs: seq<Content>): seq<Pair>
    requires |hs| == |cs|
  {
    seq(|hs|, i requires 0 <= i < |hs| => Pair(Some(hs[i]), Some(cs[i])))
  }

  /** The link of every header but the first. */
  function NextLinks(hs: seq<Header>): seq<Bytes> {
    seq(if |hs| == 0 then 0 else |hs| - 1, i requires 0 <= i < |hs| - 1 => hs[i + 1].headerLink)
  }

  function ReparseAll(f: Format, hs: seq<Bytes>): seq<Bytes> {
    seq(|hs|, i requires 0 <= i < |hs| => Reparse(f, hs[i]))
  }

  // ---------- what addPair builds ----------

  ghost predicate BuiltFrom(f: Format, v: Value, hs: seq<Header>, cs: seq<Content>) {
    && v.headers == hs && v.entries == cs && v.hashes == ReparseAll(f, NextLinks(hs))
    && Indexes(v.typeTops, Types(hs)) && Indexes(v.emap, EntryLinks(hs)) && Indexes(v.hmap, NextLinks(hs))
  }

  /** For every stream without headers, without entries, or with both. */
  lemma {:induction false} AddPairsBuilt(f: Format, ps: seq<Pair>, flags: nat)
    requires AllConform(ps, flags)
    ensures BuiltFrom(f, AddPairs(f, ps), HeadersOf(ps), EntriesOf(ps))
    ensures |HeadersOf(ps)| == if HasFlag(flags, NO_HEADERS) then 0 else |ps|
    ensures |EntriesOf(ps)| == if HasFlag(flags, NO_ENTRIES) then 0 else |ps|
  {
    if ps != [] {
      var n := |ps| - 1;
      var before, p := ps[..n], ps[n];
      assert Conforms(p, flags);
      AddPairsBuilt(f, before, flags);
      HeadersOfAppend(before, p);
      EntriesOfAppend(before, p);
      assert ps == before + [p];
      var v := AddPairs(f, before);
      if p.header.Some? {
        AddPairBuilt(f, v, HeadersOf(before), EntriesOf(before), p);
      } else {
        assert HeadersOf(before) + [] == HeadersOf(before);
        assert p.entry.None? ==> EntriesOf(before) + [] == EntriesOf(before);
      }
    }
  }

  lemma AddPairBuilt(f: Format, v: Value, hs: seq<Header>, cs: seq<Content>, p: Pair)
    requires BuiltFrom(f, v, hs, cs) && p.header.Some?
    ensures BuiltFrom(f, AddPair(f, v, p, |hs|), hs + [p.header.value],
                      cs + (if p.entry.Some? then [p.entry.value] else []))
  {
    var h := p.header.value;
    var all := hs + [h];
    assert Types(all) == Types(hs) + [h.typ] && EntryLinks(all) == EntryLinks(hs) + [h.entryLink];
    IndexesAppend(v.typeTops, Types(hs), h.typ);
    IndexesAppend(v.emap, EntryLinks(hs), h.entryLink);
    assert cs + [] == cs;
    LinksAppend(f, v, hs, h);
  }

  lemma LinksAppend(f: Format, v: Value, hs: seq<Header>, h: Header)
    requires Indexes(v.hmap, NextLinks(hs))
    ensures hs != [] ==>
              && NextLinks(hs + [h]) == NextLinks(hs) + [h.headerLink]
              && ReparseAll(f, NextLinks(hs + [h])) == ReparseAll(f, NextLinks(hs)) + [Reparse(f, h.headerLink)]
              && Indexes(v.hmap[h.headerLink := |hs| - 1], NextLinks(hs + [h]))
    ensures hs == [] ==> NextLinks(hs + [h]) == [] == NextLinks(hs)
  {
    if hs != [] {
      assert NextLinks(hs + [h]) == NextLinks(hs) + [h.headerLink];
      assert ReparseAll(f, NextLinks(hs + [h])) == ReparseAll(f, NextLinks(hs)) + [Reparse(f, h.headerLink)];
      IndexesAppend(v.hmap, NextLinks(hs), h.headerLink);
    }
  }

  lemma AddPairsFull(f: Format, hs: seq<Header>, cs: seq<Content>)
    requires |hs| == |cs|
    ensures BuiltFrom(f, AddPairs(f, Zip(hs, cs)), hs, cs)
  {
    var ps := Zip(hs, cs);
    assert AllConform(ps, 0);
    AddPairsBuilt(f, ps, 0);
    HeadersAt(ps);
    EntriesAt(ps);
  }

  lemma IndexesUnique(m: map<Bytes, int>, k: map<Bytes, int>, s: seq<Bytes>)
    requires Indexes(m, s) && Indexes(k, s)
    ensures m == k
  {
  }

  lemma SoundLinks(f: Format, v: Value)
    requires HashLaws(f) && Sound(f, v) && |v.headers| > 0
    ensures NextLinks(v.headers) == v.hashes[..|v.headers| - 1]
    ensures ReparseAll(f, NextLinks(v.headers)) == v.hashes[..|v.headers| - 1]
  {
    forall i | 0 <= i < |v.headers| - 1
      ensures NextLinks(v.headers)[i] == v.hashes[i] && Reparse(f, v.hashes[i]) == v.hashes[i]
    {
      assert Linked(f, v, i + 1) && Linked(f, v, i);
      assert HashLaw(f, f.headerBytes(v.headers[i]));
    }
  }

  /** From its headers, its entries and its last hash a sound chain is rebuilt whole, indexes included. */
  lemma SoundRebuilt(f: Format, v: Value)
    requires HashLaws(f) && Sound(f, v) && |v.headers| > 0
    ensures Finish(AddPairs(f, Zip(v.headers, v.entries)), v.hashes[|v.hashes| - 1], |v.headers|) == v
  {
    var n := |v.headers| - 1;
    AddPairsFull(f, v.headers, v.entries);
    SoundLinks(f, v);
    FinishSound(AddPairs(f, Zip(v.headers, v.entries)), v);
  }

  lemma FinishSound(w: Value, v: Value)
    requires |v.hashes| > 0 && w.headers == v.headers && w.entries == v.entries
    requires w.hashes == v.hashes[..|v.hashes| - 1] && |v.headers| == |v.hashes|
    requires Indexes(w.typeTops, Types(v.headers)) && Indexes(v.typeTops, Types(v.headers))
    requires Indexes(w.emap, EntryLinks(v.headers)) && Indexes(v.emap, EntryLinks(v.headers))
    requires Indexes(w.hmap, v.hashes[..|v.hashes| - 1]) && Indexes(v.hmap, v.hashes)
    ensures Finish(w, v.hashes[|v.hashes| - 1], |v.headers|) == v
  {
    var n := |v.hashes| - 1;
    var last := v.hashes[n];
    assert v.hashes == v.hashes[..n] + [last];
    IndexesAppend(w.hmap, v.hashes[..n], last);
    IndexesUnique(w.hmap[last := n], v.hmap, v.hashes);
    IndexesUnique(w.typeTops, v.typeTops, Types(v.headers));
    IndexesUnique(w.emap, v.emap, EntryLinks(v.headers));
  }

  // ---------- the last hash pins the chain ----------

  /** What `UnmarshalChain` leaves of a full stream. */
  ghost predicate AsRead(f: Format, v: Value) {
    && 0 < |v.headers| == |v.entries| == |v.hashes|
    && (forall i :: 0 <= i < |v.headers| ==> Writable(v.headers[i]))
    && (forall i :: 0 <= i < |v.headers| - 1 ==> LinkRead(f, v, i))
  }

  /** Every hash but the last was taken from the next header's link. */
  ghost predicate LinkRead(f: Format, v: Value, i: nat)
    requires i + 1 < |v.headers| == |v.hashes|
  {
    v.hashes[i] == Reparse(f, v.headers[i + 1].headerLink)
  }

  lemma {:induction false} ParsedPairs(f: Format, n: nat, flags: nat, s: Bytes)
    requires ChainFormat.Lawful(f) && ParsePairs(f, flags, n, s).Ok? && !HasFlag(flags, NO_HEADERS)
             && !HasFlag(flags, NO_ENTRIES)
    ensures var ps := ParsePairs(f, flags, n, s).value;
            && |ps| == n
            && forall i :: 0 <= i < n ==> ps[i].header.Some? && ps[i].entry.Some? && Writable(ps[i].header.value)
    decreases n
  {
    if n > 0 {
      var p := ParsePair(f, flags, s);
      assert HeaderReadLaw(f, s);
      ParsedPairs(f, n - 1, flags, p.rest);
    }
  }

  /** Every full stream that is accepted at all gives such a chain. */
  lemma ParsedAsRead(f: Format, s: Bytes)
    requires ChainFormat.Lawful(f) && ParseChain(f, s).Ok?
    requires var (flags, v) := ParseChain(f, s).value;
             !HasFlag(flags, NO_HEADERS) && !HasFlag(flags, NO_ENTRIES) && |v.headers| > 0
    ensures AsRead(f, ParseChain(f, s).value.1)
  {
    var (flags, v) := ParseChain(f, s).value;
    var l := ParseU64(ParseU64(s).rest);
    var n := if AsInt64(l.value) < 0 then 0 else AsInt64(l.value);
    ParsedPairs(f, n, flags, l.rest);
    var ps := ParsePairs(f, flags, n, l.rest).value;
    var hs := seq(n, i requires 0 <= i < n => ps[i].header.value);
    var cs := seq(n, i requires 0 <= i < n => ps[i].entry.value);
    assert ps == Zip(hs, cs);
    BuiltAsRead(f, hs, cs, v.hashes[|v.hashes| - 1], n);
  }

  lemma BuiltAsRead(f: Format, hs: seq<Header>, cs: seq<Content>, hash: Bytes, n: nat)
    requires 0 < |hs| == |cs| && forall i :: 0 <= i < |hs| ==> Writable(hs[i])
    ensures AsRead(f, Finish(AddPairs(f, Zip(hs, cs)), hash, n))
  {
    AddPairsFull(f, hs, cs);
    var v := Finish(AddPairs(f, Zip(hs, cs)), hash, n);
    forall i | 0 <= i < |hs| - 1 ensures LinkRead(f, v, i) {
      assert v.hashes[i] == ReparseAll(f, NextLinks(hs))[i];
    }
  }

  /** In a chain that was read and validates, every link is the hash of the header before it. */
  lemma ValidLinks(f: Format, v: Value, i: nat)
    requires ChainFormat.Lawful(f) && AsRead(f, v) && Validates(f, v, false) && i < |v.headers|
    ensures i + 1 < |v.headers| ==> v.headers[i + 1].headerLink == HeaderHash(f, v.headers[i])
    ensures i + 1 == |v.headers| ==> v.hashes[i] == HeaderHash(f, v.headers[i])
    ensures v.headers[i].entryLink == EntryHash(f, v.entries[i])
  {
    assert ValidAt(f, v, i, false) && HashLaw(f, f.headerBytes(v.headers[i]));
    if i + 1 < |v.headers| { assert LinkRead(f, v, i); }
  }

  /** Where a chain that was read is sound: each header and entry is what the link to it says. */
  ghost predicate GoodAt(f: Format, v: Value, i: nat, skipEntries: bool)
    requires i < |v.headers| == |v.entries| == |v.hashes|
  {
    && HeaderHash(f, v.headers[i]) == (if i + 1 < |v.headers| then v.headers[i + 1].headerLink else v.hashes[i])
    && (skipEntries || EntryHash(f, v.entries[i]) == v.headers[i].entryLink)
  }

  /**
   * A chain that was read validates if and only if every header is linked by the next one, the last by
   * the hash in the stream, and every entry by its own header: the detour through `Hashes` is harmless.
   */
  lemma ValidatesIff(f: Format, v: Value, skipEntries: bool)
    requires ChainFormat.Lawful(f) && AsRead(f, v)
    ensures Validates(f, v, skipEntries) <==> forall i :: 0 <= i < |v.headers| ==> GoodAt(f, v, i, skipEntries)
  {
    forall i | 0 <= i < |v.headers|
      ensures ValidAt(f, v, i, skipEntries) <==> GoodAt(f, v, i, skipEntries)
    {
      assert HashLaw(f, f.headerBytes(v.headers[i]));
      if i + 1 < |v.headers| { assert LinkRead(f, v, i); }
    }
  }

  /** The bytes that were hashed for the links of a chain. */
  ghost function Hashed(f: Format, v: Value): set<Bytes> {
    (set h | h in v.headers :: f.headerBytes(h)) + (set c | c in v.entries :: f.encode(c))
  }

  lemma HashedAt(f: Format, v: Value, i: nat)
    requires i < |v.headers| == |v.entries|
    ensures f.headerBytes(v.headers[i]) in Hashed(f, v) && f.encode(v.entries[i]) in Hashed(f, v)
  {
    assert v.headers[i] in v.headers && v.entries[i] in v.entries;
  }

  lemma SameHeader(f: Format, h: Header, k: Header)
    requires ChainFormat.Lawful(f) && Writable(h) && Writable(k) && f.headerBytes(h) == f.headerBytes(k)
    ensures h == k
  {
    assert HeaderLaw(f, h) && HeaderLaw(f, k);
    assert f.readHeader(f.headerBytes(h) + []) == Ok(h, []);
    assert f.readHeader(f.headerBytes(k) + []) == Ok(k, []);
  }

  lemma {:induction false} LastHashPinsSuffix(f: Format, a: Value, b: Value, k: nat)
    requires ChainFormat.Lawful(f) && NoCollision(f, Hashed(f, a) + Hashed(f, b)) && AsRead(f, a) && AsRead(f, b)
    requires Validates(f, a, false) && Validates(f, b, false)
    requires a.hashes[|a.hashes| - 1] == b.hashes[|b.hashes| - 1]
    requires k < |a.headers| && k < |b.headers|
    ensures a.headers[|a.headers| - 1 - k] == b.headers[|b.headers| - 1 - k]
    ensures a.entries[|a.headers| - 1 - k] == b.entries[|b.headers| - 1 - k]
  {
    var i, j := |a.headers| - 1 - k, |b.headers| - 1 - k;
    ValidLinks(f, a, i);
    ValidLinks(f, b, j);
    if k > 0 { LastHashPinsSuffix(f, a, b, k - 1); }
    HashedAt(f, a, i);
    HashedAt(f, b, j);
    assert HeaderHash(f, a.headers[i]) == HeaderHash(f, b.headers[j]);
    SameHeader(f, a.headers[i], b.headers[j]);
    assert EncodeLaw(f, a.entries[i], b.entries[j]);
  }

  /** Two such chains that go back to a first header are the same. */
  lemma LastHashPinsChain(f: Format, a: Value, b: Value)
    requires ChainFormat.Lawful(f) && NoCollision(f, Hashed(f, a) + Hashed(f, b)) && AsRead(f, a) && AsRead(f, b)
    requires Validates(f, a, false) && Validates(f, b, false)
    requires a.hashes[|a.hashes| - 1] == b.hashes[|b.hashes| - 1]
    requires a.headers[0].headerLink == NULL_HASH && b.headers[0].headerLink == NULL_HASH
    ensures a.headers == b.headers && a.entries == b.entries && a.hashes == b.hashes
  {
    if |a.headers| < |b.headers| { FirstIsFirst(f, a, b); }
    if |b.headers| < |a.headers| { FirstIsFirst(f, b, a); }
    SameLengthSame(f, a, b);
  }

  lemma SameLengthSame(f: Format, a: Value, b: Value)
    requires ChainFormat.Lawful(f) && NoCollision(f, Hashed(f, a) + Hashed(f, b)) && AsRead(f, a) && AsRead(f, b)
    requires Validates(f, a, false) && Validates(f, b, false)
    requires a.hashes[|a.hashes| - 1] == b.hashes[|b.hashes| - 1] && |a.headers| == |b.headers|
    ensures a.headers == b.headers && a.entries == b.entries && a.hashes == b.hashes
  {
    forall i | 0 <= i < |a.headers|
      ensures a.headers[i] == b.headers[i] && a.entries[i] == b.entries[i]
    {
      LastHashPinsSuffix(f, a, b, |a.headers| - 1 - i);
    }
    SameHashes(f, a, b);
  }

  lemma SameHashes(f: Format, a: Value, b: Value)
    requires AsRead(f, a) && AsRead(f, b) && a.headers == b.headers
    requires a.hashes[|a.hashes| - 1] == b.hashes[|b.hashes| - 1]
    ensures a.hashes == b.hashes
  {
    forall i | 0 <= i < |a.headers| - 1
      ensures a.hashes[i] == b.hashes[i]
    {
      assert LinkRead(f, a, i) && LinkRead(f, b, i);
    }
  }

  /** The shorter of two such chains does not begin with a first header. */
  lemma FirstIsFirst(f: Format, a: Value, b: Value)
    requires ChainFormat.Lawful(f) && NoCollision(f, Hashed(f, a) + Hashed(f, b)) && AsRead(f, a) && AsRead(f, b)
    requires Validates(f, a, false) && Validates(f, b, false)
    requires a.hashes[|a.hashes| - 1] == b.hashes[|b.hashes| - 1]
    requires |a.headers| < |b.headers|
    ensures a.headers[0].headerLink != NULL_HASH
  {
    var k := |a.headers| - 1;
    LastHashPinsSuffix(f, a, b, k);
    ValidLinks(f, b, |b.headers| - 1 - k - 1);
    assert HashLaw(f, f.headerBytes(b.headers[|b.headers| - 1 - k - 1]));
  }
}
