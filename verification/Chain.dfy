/**
 * The source chain (chain.go): an append-only list of headers and entries with three
 * indexes, linked by hashes. Adding entries, the indexes, and validation.
 */
module Chain {
  import opened Collections
  import opened Wire
  import opened HeaderFormat
  import opened ChainFormat

  /** Hmap, Emap and TypeTops hold positions; they are keyed by text of hashes in the source. */
  datatype Value = Value(
    hashes: seq<Bytes>,
    headers: seq<Header>,
    entries: seq<Content>,
    typeTops: map<Bytes, int>,
    hmap: map<Bytes, int>,
    emap: map<Bytes, int>)

  const EMPTY := Value([], [], [], map[], map[], map[])

  datatype Change = Change(action: Bytes, hash: Option<Bytes>)

  function HeaderHash(f: Format, h: Header): Bytes {
    f.hash(f.headerBytes(h))
  }

  function EntryHash(f: Format, c: Content): Bytes {
    f.hash(f.encode(c))
  }

  function Types(hs: seq<Header>): seq<Bytes> {
    seq(|hs|, i requires 0 <= i < |hs| => hs[i].typ)
  }

  function EntryLinks(hs: seq<Header>): seq<Bytes> {
    seq(|hs|, i requires 0 <= i < |hs| => hs[i].entryLink)
  }

  // ---------- indexes ----------

  /** The last position of `x`, or -1: a backward scan. */
  function Last(s: seq<Bytes>, x: Bytes): (k: int)
    ensures -1 <= k < |s|
    ensures k >= 0 ==> s[k] == x
    ensures forall i :: k < i < |s| ==> s[i] != x
  {
    if s == [] then -1 else if s[|s| - 1] == x then |s| - 1 else Last(s[..|s| - 1], x)
  }

  /** The map answers every lookup as a backward scan of the list would. */
  ghost predicate Indexes(m: map<Bytes, int>, s: seq<Bytes>) {
    && (forall x :: x in m <==> x in s)
    && (forall x :: x in m ==> m[x] == Last(s, x))
  }

  lemma LastAppend(s: seq<Bytes>, y: Bytes, x: Bytes)
    ensures Last(s + [y], x) == if x == y then |s| else Last(s, x)
  {
    assert (s + [y])[..|s|] == s;
  }

  lemma IndexesAppend(m: map<Bytes, int>, s: seq<Bytes>, y: Bytes)
    requires Indexes(m, s)
    ensures Indexes(m[y := |s|], s + [y])
  {
    forall x | x in m[y := |s|]
      ensures m[y := |s|][x] == Last(s + [y], x)
    {
      LastAppend(s, y, x);
    }
  }

  // ---------- adding ----------

  function HashOrNull(v: Value, i: int): Bytes {
    if 0 <= i < |v.hashes| then v.hashes[i] else NULL_HASH
  }

  /** `prepareHeader`: the header that would come next, and its hash. */
  function Prepare(f: Format, v: Value, now: Time, typ: Bytes, c: Content,
                   change: Option<Change>): Option<(Bytes, Header)>
    requires typ in v.typeTops ==> 0 <= v.typeTops[typ] < |v.hashes|
  {
    var prev := HashOrNull(v, |v.hashes| - 1);
    var prevOfType := if typ in v.typeTops then v.hashes[v.typeTops[typ]] else NULL_HASH;
    var entryLink := EntryHash(f, c);
    match f.sign(entryLink)
    case None => None
    case Some(sig) =>
      var ch := if change.Some? then change.value else Change([], Some(NULL_HASH));
      var h := Header(typ, now, prev, entryLink, prevOfType, sig, ch.action, ch.hash);
      if NoNil(h) then Some((HeaderHash(f, h), h)) else None
  }

  /** `addEntry` on an index that is still the length of the chain. */
  function Append(v: Value, hash: Bytes, h: Header, c: Content): Value {
    var i := |v.hashes|;
    Value(v.hashes + [hash], v.headers + [h], v.entries + [c],
          v.typeTops[h.typ := i], v.hmap[hash := i], v.emap[h.entryLink := i])
  }

  // ---------- what every chain built by adding satisfies ----------

  ghost predicate Linked(f: Format, v: Value, i: nat)
    requires i < |v.headers| == |v.hashes| == |v.entries|
  {
    var h := v.headers[i];
    && v.hashes[i] == HeaderHash(f, h)
    && h.entryLink == EntryHash(f, v.entries[i])
    && h.headerLink == HashOrNull(v, i - 1)
    && h.typeLink == HashOrNull(v, Last(Types(v.headers[..i]), h.typ))
    && NoNil(h)
  }

  ghost predicate Sound(f: Format, v: Value) {
    && |v.headers| == |v.hashes| == |v.entries|
    && (forall i :: 0 <= i < |v.headers| ==> Linked(f, v, i))
    && Indexes(v.typeTops, Types(v.headers))
    && Indexes(v.hmap, v.hashes)
    && Indexes(v.emap, EntryLinks(v.headers))
  }

  lemma EmptySound(f: Format)
    ensures Sound(f, EMPTY)
  {
  }

  lemma AppendSound(f: Format, v: Value, now: Time, typ: Bytes, c: Content, change: Option<Change>)
    requires Sound(f, v)
    ensures typ in v.typeTops ==> 0 <= v.typeTops[typ] < |v.hashes|
    ensures var p := Prepare(f, v, now, typ, c, change);
            p.Some? ==> Sound(f, Append(v, p.value.0, p.value.1, c))
  {
    assert typ in v.typeTops ==> v.typeTops[typ] == Last(Types(v.headers), typ);
    var p := Prepare(f, v, now, typ, c, change);
    if p.Some? {
      var (hash, h) := p.value;
      var w := Append(v, hash, h, c);
      forall i | 0 <= i < |w.headers|
        ensures Linked(f, w, i)
      {
        PrefixLinked(f, v, w, i, hash, h, c);
      }
      assert Types(w.headers) == Types(v.headers) + [h.typ];
      assert EntryLinks(w.headers) == EntryLinks(v.headers) + [h.entryLink];
      IndexesAppend(v.typeTops, Types(v.headers), h.typ);
      IndexesAppend(v.hmap, v.hashes, hash);
      IndexesAppend(v.emap, EntryLinks(v.headers), h.entryLink);
    }
  }

  /** What a new header needs: a signature, and the hash of the entry that is changed. */
  predicate CanPrepare(f: Format, c: Content, change: Option<Change>) {
    f.sign(EntryHash(f, c)).Some? && (change.Some? ==> change.value.hash.Some?)
  }

  /** The header that comes next on `v` for this entry: its fields one by one, the links by the headers. */
  ghost predicate NextHeader(f: Format, v: Value, now: Time, typ: Bytes, c: Content, change: Option<Change>,
                             h: Header) {
    && h.typ == typ && h.time == now && h.entryLink == EntryHash(f, c) && Some(h.sig) == f.sign(EntryHash(f, c))
    && (if change.Some? then Change(h.action, h.changed) == change.value
        else h.action == [] && h.changed == Some(NULL_HASH))
    && h.headerLink == (if v.headers == [] then NULL_HASH else HeaderHash(f, v.headers[|v.headers| - 1]))
    && h.typeLink == (var k := Last(Types(v.headers), typ);
                      if 0 <= k < |v.headers| then HeaderHash(f, v.headers[k]) else NULL_HASH)
  }

  /** `prepareHeader` succeeds exactly when it can, with the next header and its hash. */
  lemma PrepareIsNext(f: Format, v: Value, now: Time, typ: Bytes, c: Content, change: Option<Change>)
    requires Sound(f, v)
    ensures typ in v.typeTops ==> 0 <= v.typeTops[typ] < |v.hashes|
    ensures var p := Prepare(f, v, now, typ, c, change);
            && (p.Some? <==> CanPrepare(f, c, change))
            && (p.Some? ==> p.value.0 == HeaderHash(f, p.value.1) && NextHeader(f, v, now, typ, c, change, p.value.1))
  {
    AppendSound(f, v, now, typ, c, change);
    var k := Last(Types(v.headers), typ);
    assert typ in v.typeTops ==> v.typeTops[typ] == k;
    if 0 <= k < |v.headers| { assert Linked(f, v, k); }
    if v.headers != [] { assert Linked(f, v, |v.headers| - 1); }
  }

  lemma PrefixLinked(f: Format, v: Value, w: Value, i: nat, hash: Bytes, h: Header, c: Content)
    requires Sound(f, v) && w == Append(v, hash, h, c) && i < |w.headers|
    requires hash == HeaderHash(f, h) && h.entryLink == EntryHash(f, c) && NoNil(h)
    requires h.headerLink == HashOrNull(v, |v.hashes| - 1)
    requires h.typeLink == HashOrNull(v, Last(Types(v.headers), h.typ))
    ensures Linked(f, w, i)
  {
    if i < |v.headers| {
      assert Linked(f, v, i);
      assert w.headers[..i] == v.headers[..i];
    } else {
      assert w.headers[..i] == v.headers;
    }
  }

  // ---------- validation ----------

  /** The hash `Validate` compares header `i` with: the next link, or `Hashes` for the last two. */
  function NextHash(v: Value, i: nat): Bytes
    requires i < |v.headers| <= |v.hashes|
  {
    if i < |v.headers| - 2 then v.headers[i + 1].headerLink else v.hashes[i]
  }

  predicate ValidAt(f: Format, v: Value, i: nat, skipEntries: bool)
    requires i < |v.headers| <= |v.hashes| && (!skipEntries ==> |v.headers| <= |v.entries|)
  {
    && NoNil(v.headers[i])
    && HeaderHash(f, v.headers[i]) == NextHash(v, i)
    && (!skipEntries ==> EntryHash(f, v.entries[i]) == v.headers[i].entryLink)
  }

  predicate Validates(f: Format, v: Value, skipEntries: bool)
    requires |v.headers| <= |v.hashes| && (!skipEntries ==> |v.headers| <= |v.entries|)
  {
    forall i :: 0 <= i < |v.headers| ==> ValidAt(f, v, i, skipEntries)
  }

  /** A chain built by adding validates. */
  lemma SoundValidates(f: Format, v: Value)
    requires Sound(f, v)
    ensures Validates(f, v, false)
  {
    forall i | 0 <= i < |v.headers|
      ensures ValidAt(f, v, i, false)
    {
      assert Linked(f, v, i);
      if i < |v.headers| - 2 { assert Linked(f, v, i + 1); }
    }
  }
}
