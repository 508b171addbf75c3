/**
 * Chain files (chain.go): a chain file loads to the chain that wrote it; what happens when
 * its last write was cut short, and when more is written behind what was left over.
 */
module ChainFile {
  import opened Collections
  import opened Keyspace
  import opened Wire
  import opened HeaderFormat
  import opened HeaderCut
  import opened ChainFormat
  import opened Chain
  import opened ChainCodec
  import opened ChainTheorems

  /** Read pairs until nothing is left; by `PairShrinks` every pair takes some bytes. */
  function LoadPairs(f: Format, s: Bytes, done: seq<Pair>): Result<seq<Pair>>
    decreases |s|
  {
    match ParsePair(f, 0, s)
    case Bad(e) => if e == EOF then Success(done) else Failure(e)
    case Ok(p, rest) => if |rest| < |s| then LoadPairs(f, rest, done + [p]) else Failure(Panic)
  }

  lemma PairShrinks(f: Format, s: Bytes)
    requires ChainFormat.Lawful(f) && ParsePair(f, 0, s).Ok?
    ensures |ParsePair(f, 0, s).rest| < |s|
  {
    assert HeaderReadLaw(f, s) && EntryReadLaw(f, f.readHeader(s).rest);
  }

  /** `NewChainFromFile`: the hash of the last header is computed. */
  function LoadFile(f: Format, s: Bytes): Result<Value> {
    match LoadPairs(f, s, [])
    case Failure(e) => Failure(e)
    case Success(ps) =>
      var v := AddPairs(f, ps);
      if ps == [] || v.headers == [] then Success(v)
      else Success(Finish(v, HeaderHash(f, v.headers[|v.headers| - 1]), |ps|))
  }

  ghost predicate FullPair(f: Format, p: Pair) {
    p.header.Some? && p.entry.Some? && PairFits(f, p)
  }

  ghost predicate Full(f: Format, ps: seq<Pair>) {
    forall i :: 0 <= i < |ps| ==> FullPair(f, ps[i])
  }

  /** The pair is read back whatever follows it. */
  ghost predicate Readable(f: Format, p: Pair) {
    |PairBytes(f, p)| > 0 && forall more :: ParsePair(f, 0, PairBytes(f, p) + more) == Ok(p, more)
  }

  lemma FullReadable(f: Format, p: Pair)
    requires ChainFormat.Lawful(f) && FullPair(f, p)
    ensures Readable(f, p)
  {
    forall more ensures ParsePair(f, 0, PairBytes(f, p) + more) == Ok(p, more) {
      PairRoundTrip(f, 0, p, more);
    }
    PairRoundTrip(f, 0, p, []);
    PairShrinks(f, PairBytes(f, p) + []);
  }

  lemma LoadNext(f: Format, p: Pair, more: Bytes, done: seq<Pair>)
    requires Readable(f, p)
    ensures LoadPairs(f, PairBytes(f, p) + more, done) == LoadPairs(f, more, done + [p])
  {
  }

  lemma {:induction false} LoadReadable(f: Format, ps: seq<Pair>, rest: Bytes, done: seq<Pair>)
    requires forall i :: 0 <= i < |ps| ==> Readable(f, ps[i])
    ensures LoadPairs(f, PairsBytes(f, ps) + rest, done) == LoadPairs(f, rest, done + ps)
    decreases |ps|
  {
    if ps == [] {
      assert [] + rest == rest && done + [] == done;
    } else {
      var p, qs := ps[0], ps[1..];
      Assoc(PairBytes(f, p), PairsBytes(f, qs), rest);
      LoadNext(f, p, PairsBytes(f, qs) + rest, done);
      LoadReadable(f, qs, rest, done + [p]);
      assert done + [p] + qs == done + ps;
    }
  }

  lemma LoadWritten(f: Format, ps: seq<Pair>, rest: Bytes, done: seq<Pair>)
    requires ChainFormat.Lawful(f) && Full(f, ps)
    ensures LoadPairs(f, PairsBytes(f, ps) + rest, done) == LoadPairs(f, rest, done + ps)
  {
    forall i | 0 <= i < |ps| ensures Readable(f, ps[i]) {
      FullReadable(f, ps[i]);
    }
    LoadReadable(f, ps, rest, done);
  }

  /** One of the reads that make up a pair begins after `k` of its bytes. */
  predicate AtRead(p: Pair, k: int)
    requires p.header.Some?
  {
    var l := HeaderLength(p.header.value);
    if k < l then AtField(p.header.value, k) else k == l || k == l + 8
  }

  /** A pair that is cut short is not read; the reader sees a clean end exactly where one of its reads begins. */
  lemma CutPair(f: Format, p: Pair, k: nat)
    requires ChainFormat.Lawful(f) && FullPair(f, p) && k < |PairBytes(f, p)|
    ensures ParsePair(f, 0, PairBytes(f, p)[..k]) == Bad(Ending(AtRead(p, k)))
  {
    var h, e := f.headerBytes(p.header.value), f.entryBytes(p.entry.value);
    var l := HeaderLength(p.header.value);
    assert HeaderLaw(f, p.header.value) && EntryLaw(f, p.entry.value);
    if k < l {
      assert (h + e)[..k] == h[..k];
    } else {
      assert (h + e)[..k] == h + e[..k - l];
    }
  }

  /** The chain of the first `n` pairs. */
  ghost function Front(f: Format, v: Value, n: nat): Value
    requires n <= |v.headers| == |v.entries| == |v.hashes|
  {
    var w := AddPairs(f, Zip(v.headers[..n], v.entries[..n]));
    if n == 0 then w else Finish(w, v.hashes[n - 1], n)
  }

  lemma LoadFront(f: Format, v: Value, n: nat, file: Bytes)
    requires ChainFormat.Lawful(f) && Sound(f, v) && n <= |v.headers|
    requires LoadPairs(f, file, []) == Success(Zip(v.headers[..n], v.entries[..n]))
    ensures LoadFile(f, file) == Success(Front(f, v, n))
  {
    AddPairsFull(f, v.headers[..n], v.entries[..n]);
    if n > 0 { assert Linked(f, v, n - 1); }
  }

  function PairOf(v: Value, n: nat): Pair
    requires n < |v.headers| == |v.entries|
  {
    Pair(Some(v.headers[n]), Some(v.entries[n]))
  }

  /** The file when the write of pair `n` stopped after `k` bytes. */
  function CutFile(f: Format, v: Value, n: nat, k: nat): Bytes
    requires n < |v.headers| == |v.entries| && k < |PairBytes(f, PairOf(v, n))|
  {
    PairsBytes(f, Zip(v.headers[..n], v.entries[..n])) + PairBytes(f, PairOf(v, n))[..k]
  }

  /** The chain of the first `n` pairs is one that could have been built by adding them. */
  lemma FrontSound(f: Format, v: Value, n: nat)
    requires HashLaws(f) && Sound(f, v) && n <= |v.headers|
    ensures Sound(f, Front(f, v, n))
    ensures var w := Front(f, v, n);
            w.headers == v.headers[..n] && w.entries == v.entries[..n] && w.hashes == v.hashes[..n]
  {
    var hs, cs := v.headers[..n], v.entries[..n];
    AddPairsFull(f, hs, cs);
    if n > 0 {
      FrontHashes(f, v, n);
      IndexesAppend(AddPairs(f, Zip(hs, cs)).hmap, v.hashes[..n - 1], v.hashes[n - 1]);
    }
    forall i | 0 <= i < n ensures Linked(f, Front(f, v, n), i) {
      assert Linked(f, v, i) && hs[..i] == v.headers[..i];
    }
  }

  lemma FrontHashes(f: Format, v: Value, n: nat)
    requires HashLaws(f) && Sound(f, v) && 0 < n <= |v.headers|
    ensures NextLinks(v.headers[..n]) == v.hashes[..n - 1]
            && ReparseAll(f, NextLinks(v.headers[..n])) == v.hashes[..n - 1]
    ensures v.hashes[..n] == v.hashes[..n - 1] + [v.hashes[n - 1]]
  {
    SoundLinks(f, v);
    forall i | 0 <= i < n - 1
      ensures NextLinks(v.headers[..n])[i] == v.hashes[i] && Reparse(f, v.hashes[i]) == v.hashes[i]
    {
      assert NextLinks(v.headers)[i] == v.hashes[i] && ReparseAll(f, NextLinks(v.headers))[i] == v.hashes[i];
    }
  }

  lemma LoadStops(f: Format, v: Value, n: nat, k: nat, done: seq<Pair>)
    requires ChainFormat.Lawful(f) && n < |v.headers| == |v.entries| && Fits(f, v) && k < |PairBytes(f, PairOf(v, n))|
    ensures LoadPairs(f, PairBytes(f, PairOf(v, n))[..k], done)
            == if AtRead(PairOf(v, n), k) then Success(done) else Failure(UnexpectedEOF)
  {
    CutPair(f, PairOf(v, n), k);
  }

  lemma LoadEnds(f: Format, done: seq<Pair>)
    requires f.readHeader([]) == Bad(EOF)
    ensures LoadPairs(f, [], done) == Success(done)
  {
  }

  /**
   * A file whose last write was cut short loads to the chain of the whole pairs if the cut
   * falls where one of the reads begins, and is refused otherwise.
   */
  lemma LoadCut(f: Format, v: Value, n: nat, k: nat)
    requires ChainFormat.Lawful(f) && Sound(f, v) && n < |v.headers| && Fits(f, v) && k < |PairBytes(f, PairOf(v, n))|
    ensures LoadFile(f, CutFile(f, v, n, k))
            == if AtRead(PairOf(v, n), k) then Success(Front(f, v, n)) else Failure(UnexpectedEOF)
    ensures Sound(f, Front(f, v, n))
  {
    FrontSound(f, v, n);
    var ps, cut := Zip(v.headers[..n], v.entries[..n]), PairBytes(f, PairOf(v, n))[..k];
    assert Full(f, ps);
    LoadWritten(f, ps, cut, []);
    assert [] + ps == ps;
    LoadStops(f, v, n, k, ps);
    if AtRead(PairOf(v, n), k) { LoadFront(f, v, n, CutFile(f, v, n, k)); }
  }

  /** Loading the file a sound chain wrote gives the chain. */
  lemma LoadSaved(f: Format, v: Value)
    requires ChainFormat.Lawful(f) && Sound(f, v) && Fits(f, v)
    ensures LoadFile(f, PairsBytes(f, Zip(v.headers, v.entries))) == Success(v)
  {
    var n, ps := |v.headers|, Zip(v.headers, v.entries);
    assert v.headers[..n] == v.headers && v.entries[..n] == v.entries;
    var file := PairsBytes(f, ps);
    assert file + [] == file && [] + ps == ps;
    assert Full(f, ps);
    LoadWritten(f, ps, [], []);
    LoadEnds(f, ps);
    LoadFront(f, v, n, file);
    if n > 0 {
      SoundRebuilt(f, v);
    } else {
      IndexesUnique(map[], v.typeTops, []);
      IndexesUnique(map[], v.hmap, []);
      IndexesUnique(map[], v.emap, []);
      assert Types(v.headers) == [] && EntryLinks(v.headers) == [];
    }
  }

  // ---------- leftover bytes ----------

  lemma {:induction false} LoadExtends(f: Format, s: Bytes, done: seq<Pair>)
    ensures LoadPairs(f, s, done).Success? ==> done <= LoadPairs(f, s, done).value
    decreases |s|
  {
    var p := ParsePair(f, 0, s);
    if p.Ok? && |p.rest| < |s| { LoadExtends(f, p.rest, done + [p.value]); }
  }

  lemma {:induction false} HeadersConcat(ps: seq<Pair>, qs: seq<Pair>)
    ensures HeadersOf(ps + qs) == HeadersOf(ps) + HeadersOf(qs)
  {
    if ps == [] {
      assert ps + qs == qs;
    } else {
      HeadersConcat(ps[1..], qs);
      assert (ps + qs)[1..] == ps[1..] + qs && (ps + qs)[0] == ps[0];
      ConcatFirst(if ps[0].header.Some? then [ps[0].header.value] else [], HeadersOf(ps[1..]), HeadersOf(qs));
    }
  }

  lemma ConcatFirst(a: seq<Header>, b: seq<Header>, c: seq<Header>)
    ensures a + (b + c) == (a + b) + c
  {
  }

  /** What is read first from a stream has a type as long as its first byte says. */
  lemma ReadsType(f: Format, s: Bytes, done: seq<Pair>)
    requires ChainFormat.Lawful(f) && s != []
    ensures var r := LoadPairs(f, s, done);
            r.Success? && r.value != done ==>
              && |r.value| > |done| && done <= r.value
              && r.value[|done|].header.Some? && |r.value[|done|].header.value.typ| == s[0]
  {
    var p := ParsePair(f, 0, s);
    if p.Ok? && |p.rest| < |s| {
      LoadExtends(f, p.rest, done + [p.value]);
      assert HeaderReadLaw(f, s);
      assert (done + [p.value])[|done|] == p.value;
    }
  }

  lemma FirstByte(f: Format, p: Pair, k: nat, more: Bytes)
    requires ChainFormat.Lawful(f) && FullPair(f, p) && 0 < k <= |PairBytes(f, p)|
    ensures (PairBytes(f, p)[..k] + more)[0] == |p.header.value.typ|
  {
    var h := p.header.value;
    assert HeaderLaw(f, h) && HeaderReadLaw(f, f.headerBytes(h) + []);
    assert (f.headerBytes(h) + [])[0] == PairBytes(f, p)[0];
  }

  /**
   * A file that was loaded although its last write, of the pair `p`, was cut goes on behind the
   * leftover bytes. Wherever the cut was, the next entry with a type of another length is not
   * read back as the next one.
   */
  lemma LeftoverHidesNext(f: Format, ps: seq<Pair>, p: Pair, k: nat, q: Pair)
    requires ChainFormat.Lawful(f) && Full(f, ps) && FullPair(f, p) && FullPair(f, q)
    requires 0 < k <= |PairBytes(f, p)| && |p.header.value.typ| != |q.header.value.typ|
    ensures var r := LoadFile(f, PairsBytes(f, ps) + (PairBytes(f, p)[..k] + PairBytes(f, q)));
            r.Success? ==> r.value.headers != HeadersOf(ps) + [q.header.value]
  {
    var tail := PairBytes(f, p)[..k] + PairBytes(f, q);
    LoadWritten(f, ps, tail, []);
    assert [] + ps == ps;
    FirstByte(f, p, k, PairBytes(f, q));
    var r := LoadPairs(f, tail, ps);
    if r.Success? {
      var all := r.value;
      AddPairsHeaders(f, all);
      ReadsType(f, tail, ps);
      if all != ps { NextHeader(ps, all); }
    }
  }

  lemma NextHeader(ps: seq<Pair>, all: seq<Pair>)
    requires ps < all && all[|ps|].header.Some?
    ensures |HeadersOf(all)| > |HeadersOf(ps)| && HeadersOf(all)[|HeadersOf(ps)|] == all[|ps|].header.value
  {
    assert all == ps + all[|ps|..];
    HeadersConcat(ps, all[|ps|..]);
  }
}
