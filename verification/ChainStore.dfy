/**
 * The chain object of chain.go: slices and maps updated in place, and the file that new
 * pairs are appended to. Every method is proved against the functions of `Chain`,
 * `ChainCodec` and `ChainTheorems`.
 */
module ChainStore {
  import opened Collections
  import opened Wire
  import opened HeaderFormat
  import opened ChainFormat
  import opened Chain
  import opened ChainCodec
  import opened ChainTheorems
  import opened ChainFile

  // ---------- one header, entry or pair ----------

  // Each law below is used only where its predicate is mentioned.
  ghost predicate AtHeader(h: Header) { true }
  ghost predicate AtEntry(c: Content) { true }
  ghost predicate AtInput(s: Bytes) { true }

  /** `f` is the format that header.go and entry.go implement over the libraries `u`. */
  ghost predicate Realises(f: Format, u: Suite) {
    && f.hash == u.hash && f.isHash == u.isHash && f.sign == u.sign && f.encode == u.encode
    && (forall h {:trigger AtHeader(h)} :: f.headerBytes(h) == HeaderBytes(u, h))
    && (forall c {:trigger AtEntry(c)} :: f.entryBytes(c) == EntryBytes(u, c))
    && (forall s {:trigger AtInput(s)} :: f.readHeader(s) == ParseHeader(u, s) && f.readEntry(s) == ParseEntry(u, s))
  }

  lemma FormatRealised(u: Suite)
    ensures Realises(FormatOf(u), u)
  {
  }

  /** The hash of a header; none when one of its hashes is nil. */
  method HeaderSum(u: Suite, ghost f: Format, h: Header) returns (hash: Option<Bytes>)
    requires Realises(f, u)
    ensures hash == if NoNil(h) then Some(HeaderHash(f, h)) else None
  {
    assert AtHeader(h);
    var w := new Stream([]);
    var ok := MarshalHeader(u, w, h);
    if !ok { return None; }
    assert w.data == f.headerBytes(h);
    return Some(u.hash(w.data));
  }

  method WriteHeader(u: Suite, ghost f: Format, w: Stream, h: Header) returns (ok: bool)
    requires Realises(f, u)
    modifies w
    ensures ok <==> NoNil(h)
    ensures ok ==> w.data == old(w.data) + f.headerBytes(h)
    ensures old(w.data) <= w.data
  {
    assert AtHeader(h);
    ok := MarshalHeader(u, w, h);
  }

  method WriteEntry(u: Suite, ghost f: Format, w: Stream, c: Content)
    requires Realises(f, u)
    modifies w
    ensures w.data == old(w.data) + f.entryBytes(c)
  {
    assert AtEntry(c);
    MarshalEntry(u, w, c);
  }

  method WritePair(u: Suite, ghost f: Format, w: Stream, p: Pair) returns (ok: bool)
    requires Realises(f, u)
    modifies w
    ensures ok <==> (p.header.Some? ==> NoNil(p.header.value))
    ensures ok ==> w.data == old(w.data) + PairBytes(f, p)
    ensures old(w.data) <= w.data
  {
    ok := true;
    if p.header.Some? {
      ok := WriteHeader(u, f, w, p.header.value);
      if !ok { return; }
    }
    if p.entry.Some? { WriteEntry(u, f, w, p.entry.value); }
  }

  method ReadHeader(u: Suite, ghost f: Format, r: Stream) returns (res: Result<Header>)
    requires Realises(f, u)
    modifies r
    ensures Follows(f.readHeader(old(r.data)), res, r.data)
  {
    assert AtInput(r.data);
    res := UnmarshalHeader(u, r);
  }

  method ReadEntry(u: Suite, ghost f: Format, r: Stream) returns (res: Result<Content>)
    requires Realises(f, u)
    modifies r
    ensures Follows(f.readEntry(old(r.data)), res, r.data)
  {
    assert AtInput(r.data);
    res := UnmarshalEntry(u, r);
  }

  method ReadPair(u: Suite, ghost f: Format, flags: nat, r: Stream) returns (res: Result<Pair>)
    requires Realises(f, u)
    modifies r
    ensures Follows(ParsePair(f, flags, old(r.data)), res, r.data)
  {
    var header, entry := None, None;
    if !HasFlag(flags, NO_HEADERS) {
      var h := ReadHeader(u, f, r);
      if h.Failure? { return Failure(h.error); }
      header := Some(h.value);
    }
    if !HasFlag(flags, NO_ENTRIES) {
      var e := ReadEntry(u, f, r);
      if e.Failure? { return Failure(e.error); }
      entry := Some(e.value);
    }
    return Success(Pair(header, entry));
  }

  lemma {:induction false} PairsBytesAppend(f: Format, ps: seq<Pair>, p: Pair)
    ensures PairsBytes(f, ps + [p]) == PairsBytes(f, ps) + PairBytes(f, p)
  {
    if ps == [] {
      assert [p][1..] == [] && ps + [p] == [p];
    } else {
      assert (ps + [p])[1..] == ps[1..] + [p];
      PairsBytesAppend(f, ps[1..], p);
      Assoc(PairBytes(f, ps[0]), PairsBytes(f, ps[1..]), PairBytes(f, p));
    }
  }

  lemma ZipAppend(hs: seq<Header>, cs: seq<Content>, h: Header, c: Content)
    requires |hs| == |cs|
    ensures Zip(hs + [h], cs + [c]) == Zip(hs, cs) + [Pair(Some(h), Some(c))]
  {
  }

  lemma FileGrows(f: Format, hs: seq<Header>, cs: seq<Content>, h: Header, c: Content)
    requires |hs| == |cs|
    ensures PairsBytes(f, Zip(hs + [h], cs + [c])) == PairsBytes(f, Zip(hs, cs)) + PairBytes(f, Pair(Some(h), Some(c)))
  {
    ZipAppend(hs, cs, h, c);
    PairsBytesAppend(f, Zip(hs, cs), Pair(Some(h), Some(c)));
  }

  class SourceChain {
    const suite: Suite
    ghost const format: Format
    var hashes: seq<Bytes>
    var headers: seq<Header>
    var entries: seq<Content>
    var typeTops: map<Bytes, int>
    var hmap: map<Bytes, int>
    var emap: map<Bytes, int>
    var file: Stream?

    constructor (u: Suite, ghost f: Format)
      ensures suite == u && format == f && View() == EMPTY && file == null
    {
      suite := u;
      format := f;
      hashes, headers, entries := [], [], [];
      typeTops, hmap, emap := map[], map[], map[];
      file := null;
    }

    ghost function View(): Value
      reads this
    {
      Value(hashes, headers, entries, typeTops, hmap, emap)
    }

    /** The file holds the pairs of the chain, and nothing else. */
    ghost predicate Saved()
      reads this, file
    {
      && |headers| == |entries|
      && (file != null ==> file.data == PairsBytes(format, Zip(headers, entries)))
    }

    /**
     * Every chain that is loaded from a file written by `AddEntry`, cut short or not, and grows by
     * `AddEntry` is in this state. A chain that was never cut is `Saved` as well.
     */
    ghost predicate Ready()
      reads this
    {
      Realises(format, suite) && Sound(format, View())
    }

    method PrepareHeader(now: Time, typ: Bytes, c: Content, change: Option<Change>)
      returns (r: Option<(nat, Bytes, Header)>)
      requires Realises(format, suite) && (typ in typeTops ==> 0 <= typeTops[typ] < |hashes|)
      ensures var p := Prepare(format, View(), now, typ, c, change);
              r == if p.Some? then Some((|hashes|, p.value.0, p.value.1)) else None
    {
      var l := |hashes|;
      var prev := if l == 0 then NULL_HASH else hashes[l - 1];
      var prevOfType := if typ in typeTops then hashes[typeTops[typ]] else NULL_HASH;
      var p := NewHeader(suite, format, now, typ, c, prev, prevOfType, change);
      return if p.Some? then Some((l, p.value.0, p.value.1)) else None;
    }

    /** Fails when the chain moved on since the header was made, or has headers only. */
    method AddPrepared(entryIdx: int, hash: Bytes, h: Header, c: Content) returns (e: Option<Error>)
      requires Realises(format, suite)
      modifies this, file
      ensures old(|hashes|) != entryIdx ==> e == Some(IndexMoved)
      ensures old(|hashes|) == entryIdx != old(|entries|) ==> e == Some(Incomplete)
      ensures e.Some? && e.value != NilHash ==>
                View() == old(View()) && file == old(file) && (file != null ==> file.data == old(file.data))
      ensures old(|hashes|) == entryIdx == old(|entries|) ==>
                && View() == Append(old(View()), hash, h, c) && file == old(file)
                && (e == if NoNil(h) || file == null then None else Some(NilHash))
                && (e.None? && file != null ==>
                      file.data == old(file.data) + PairBytes(format, Pair(Some(h), Some(c))))
    {
      var l := |hashes|;
      if l != entryIdx { return Some(IndexMoved); }
      if l != |entries| { return Some(Incomplete); }
      Grow(hash, h, c);
      e := None;
      if file != null {
        var ok := WritePair(suite, format, file, Pair(Some(h), Some(c)));
        if !ok { e := Some(NilHash); }
      }
    }

    method Grow(hash: Bytes, h: Header, c: Content)
      modifies this
      ensures View() == Append(old(View()), hash, h, c) && file == old(file)
    {
      var i := |hashes|;
      hashes := hashes + [hash];
      headers := headers + [h];
      entries := entries + [c];
      typeTops := typeTops[h.typ := i];
      emap := emap[h.entryLink := i];
      hmap := hmap[hash := i];
    }

    /** The whole state after an add; its own checks cannot fail. */
    method AddEntry(now: Time, typ: Bytes, c: Content) returns (r: Option<Bytes>)
      requires Ready()
      modifies this, file
      ensures Ready() && file == old(file) && (old(Saved()) ==> Saved())
      ensures typ in old(typeTops) ==> 0 <= old(typeTops)[typ] < |old(hashes)|
      ensures var p := Prepare(format, old(View()), now, typ, c, None);
              if p.Some? then
                && r == Some(p.value.0) && View() == Append(old(View()), p.value.0, p.value.1, c)
                && (file != null ==> file.data == old(file.data) + PairBytes(format, Pair(Some(p.value.1), Some(c))))
              else
                r == None && View() == old(View()) && (file != null ==> file.data == old(file.data))
    {
      AppendSound(format, View(), now, typ, c, None);
      var p := PrepareHeader(now, typ, c, None);
      if p.None? { return None; }
      var (l, hash, h) := p.value;
      FileGrows(format, headers, entries, h, c);
      var e := AddPrepared(l, hash, h, c);
      return Some(hash);
    }

    /** The latest header of a type and its hash. */
    method TopType(typ: Bytes) returns (r: Option<(Bytes, Header)>)
      requires Ready()
      ensures r.None? <==> typ !in Types(headers)
      ensures r.Some? ==> exists i :: 0 <= i < |headers| && r.value == (hashes[i], headers[i]) && headers[i].typ == typ
                                      && forall j :: i < j < |headers| ==> headers[j].typ != typ
    {
      if typ in typeTops {
        var i := typeTops[typ];
        assert i == Last(Types(headers), typ);
        assert Types(headers)[i] == typ;
        forall j | i < j < |headers|
          ensures headers[j].typ != typ
        {
          assert Types(headers)[j] != typ;
        }
        return Some((hashes[i], headers[i]));
      }
      return None;
    }

    method Get(h: Bytes) returns (r: Option<Header>)
      requires Ready()
      ensures r.None? <==> h !in hashes
      ensures r.Some? ==> r.value in headers && HeaderHash(format, r.value) == h
    {
      if h in hmap {
        var i := hmap[h];
        assert i == Last(hashes, h);
        assert Linked(format, View(), i);
        return Some(headers[i]);
      }
      return None;
    }

    method GetEntry(h: Bytes) returns (r: Option<(Content, Bytes)>)
      requires Ready()
      ensures r.None? <==> forall i :: 0 <= i < |entries| ==> EntryHash(format, entries[i]) != h
      ensures r.Some? ==> exists i :: 0 <= i < |entries| && r.value == (entries[i], headers[i].typ)
                                      && EntryHash(format, entries[i]) == h
    {
      ghost var f, v := format, View();
      assert forall i :: 0 <= i < |entries| ==> Linked(f, v, i);
      if h in emap {
        var i := emap[h];
        assert i == Last(EntryLinks(headers), h);
        assert Linked(f, v, i);
        return Some((entries[i], headers[i].typ));
      }
      assert h !in EntryLinks(headers);
      forall i | 0 <= i < |entries|
        ensures EntryHash(f, entries[i]) != h
      {
        assert Linked(f, v, i);
        assert EntryLinks(headers)[i] in EntryLinks(headers);
      }
      return None;
    }

    method Validate(skipEntries: bool) returns (ok: bool)
      requires Realises(format, suite) && |headers| <= |hashes| && (!skipEntries ==> |headers| <= |entries|)
      ensures ok <==> Validates(format, View(), skipEntries)
    {
      ghost var f, v := format, View();
      var l := |headers|;
      for i := 0 to l
        invariant forall k :: 0 <= k < i ==> ValidAt(f, v, k, skipEntries)
      {
        var hd := headers[i];
        var next := if i < l - 2 then headers[i + 1].headerLink else hashes[i];
        var hash := HeaderSum(suite, format, hd);
        if hash != Some(next) {
          assert !ValidAt(f, v, i, skipEntries);
          return false;
        }
        if !skipEntries && suite.hash(suite.encode(entries[i])) != hd.entryLink {
          assert !ValidAt(f, v, i, skipEntries);
          return false;
        }
      }
      return true;
    }

    /** Collects the chosen pairs. */
    method PairsToWrite(flags: nat, whitelist: seq<Bytes>, private: seq<Bytes>) returns (pairs: seq<Pair>, last: nat)
      requires |headers| == |entries|
      ensures pairs == Select(View(), |headers|, flags, whitelist, private)
      ensures !HasFlag(flags, NO_HEADERS) ==> last == LastChosen(View(), |headers|, whitelist)
    {
      pairs, last := [], 0;
      for i := 0 to |headers|
        invariant pairs == Select(View(), i, flags, whitelist, private)
        invariant !HasFlag(flags, NO_HEADERS) ==> last == LastChosen(View(), i, whitelist)
      {
        var hdr := Some(headers[i]);
        if i == 0 || FilterPass(headers[i], whitelist, []) {
          var e := Some(entries[i]);
          if i == 0 && HasFlag(flags, OMIT_DNA) { e := Some(""); }
          if HasFlag(flags, NO_ENTRIES) { e := None; }
          if !FilterPass(headers[i], whitelist, private) { e := Some(REDACTED); }
          if HasFlag(flags, NO_HEADERS) { hdr := None; } else { last := i; }
          pairs := pairs + [Pair(hdr, e)];
        }
      }
    }

    /** A chain without entries is refused; a nil hash stops the writing part way. */
    method MarshalChain(w: Stream, flags: nat, whitelist: seq<Bytes>, private: seq<Bytes>) returns (err: Option<Error>)
      requires Realises(format, suite)
      requires HasFlag(flags, NO_HEADERS) || LastChosen(View(), |headers|, whitelist) < |hashes|
      modifies w
      ensures err == Some(Incomplete) <==> |headers| != |entries|
      ensures err == Some(Incomplete) ==> w.data == old(w.data)
      ensures err.None? ==> w.data == old(w.data) + ChainBytes(format, View(), flags, whitelist, private)
      ensures err.None? || err == Some(Incomplete) || err == Some(NilHash)
      ensures err == Some(NilHash) ==> exists i :: 0 <= i < |headers| && !NoNil(headers[i])
    {
      if |headers| != |entries| { return Some(Incomplete); }
      WriteU64(w, flags);
      var pairs, last := PairsToWrite(flags, whitelist, private);
      SelectHeaders(View(), |headers|, flags, whitelist, private);
      var ok := WriteSelected(suite, format, w, pairs, if HasFlag(flags, NO_HEADERS) then None else Some(hashes[last]));
      if !ok { return Some(NilHash); }
      Assoc(old(w.data), LittleEndian(flags, 8),
            SelectedBytes(format, pairs, if HasFlag(flags, NO_HEADERS) then None else Some(hashes[last])));
      return None;
    }

    /** Adds a pair during reading; `hashes` stays one behind. */
    method AddPairAt(p: Pair, i: nat)
      requires Realises(format, suite)
      modifies this
      ensures View() == AddPair(format, old(View()), p, i) && file == old(file)
    {
      if p.header.Some? {
        var h := p.header.value;
        if i > 0 {
          hashes := hashes + [if suite.isHash(h.headerLink) then h.headerLink else []];
          hmap := hmap[h.headerLink := i - 1];
        }
        headers := headers + [h];
        typeTops := typeTops[h.typ := i];
        emap := emap[h.entryLink := i];
      }
      if p.entry.Some? { entries := entries + [p.entry.value]; }
    }

    method AddLastHash(hash: Bytes, n: nat)
      modifies this
      ensures View() == Finish(old(View()), hash, n) && file == old(file)
    {
      hashes := hashes + [hash];
      hmap := hmap[hash := n - 1];
    }
  }

  lemma {:induction false} SelectHeaders(v: Value, n: nat, flags: nat, whitelist: seq<Bytes>, private: seq<Bytes>)
    requires n <= |v.headers| == |v.entries|
    ensures forall p :: p in Select(v, n, flags, whitelist, private) && p.header.Some? ==> p.header.value in v.headers
  {
    if n > 0 { SelectHeaders(v, n - 1, flags, whitelist, private); }
  }

  /** What follows the flags in a stream. */
  function SelectedBytes(f: Format, pairs: seq<Pair>, last: Option<Bytes>): Bytes {
    LittleEndian(|pairs|, 8) + (PairsBytes(f, pairs) + (if last.Some? then HashBytes(last.value) else []))
  }

  method WriteSelected(u: Suite, ghost f: Format, w: Stream, pairs: seq<Pair>, last: Option<Bytes>) returns (ok: bool)
    requires Realises(f, u)
    modifies w
    ensures ok ==> w.data == old(w.data) + SelectedBytes(f, pairs, last)
    ensures !ok ==> exists p :: p in pairs && p.header.Some? && !NoNil(p.header.value)
  {
    WriteU64(w, |pairs|);
    ok := WritePairs(u, f, w, pairs);
    if !ok { return; }
    if last.Some? { ok := MarshalHash(w, last); }
    ghost var tail := if last.Some? then HashBytes(last.value) else [];
    if ok {
      Assoc(old(w.data) + LittleEndian(|pairs|, 8), PairsBytes(f, pairs), tail);
      Assoc(old(w.data), LittleEndian(|pairs|, 8), PairsBytes(f, pairs) + tail);
    }
  }

  method WritePairs(u: Suite, ghost f: Format, w: Stream, pairs: seq<Pair>) returns (ok: bool)
    requires Realises(f, u)
    modifies w
    ensures ok ==> w.data == old(w.data) + PairsBytes(f, pairs)
    ensures !ok ==> exists p :: p in pairs && p.header.Some? && !NoNil(p.header.value)
  {
    for i := 0 to |pairs|
      invariant w.data == old(w.data) + PairsBytes(f, pairs[..i])
    {
      ok := WritePair(u, f, w, pairs[i]);
      if !ok { return; }
      assert pairs[..i + 1] == pairs[..i] + [pairs[i]];
      PairsBytesAppend(f, pairs[..i], pairs[i]);
    }
    assert pairs[..|pairs|] == pairs;
    return true;
  }

  /** What is still to be read, behind what was read already. */
  ghost function Behind(done: seq<Pair>, p: Parsed<seq<Pair>>): Parsed<seq<Pair>> {
    if p.Ok? then Ok(done + p.value, p.rest) else p
  }

  lemma BehindNothing(p: Parsed<seq<Pair>>)
    ensures Behind([], p) == p
  {
    if p.Ok? { assert [] + p.value == p.value; }
  }

  lemma BehindNext(f: Format, flags: nat, done: seq<Pair>, n: nat, s: Bytes)
    requires n > 0
    ensures var p := ParsePair(f, flags, s);
            Behind(done, ParsePairs(f, flags, n, s)) ==
              if p.Ok? then Behind(done + [p.value], ParsePairs(f, flags, n - 1, p.rest)) else Bad(p.error)
  {
    var p := ParsePair(f, flags, s);
    if p.Ok? && ParsePairs(f, flags, n - 1, p.rest).Ok? {
      var ps := ParsePairs(f, flags, n - 1, p.rest).value;
      assert done + ([p.value] + ps) == done + [p.value] + ps;
    }
  }

  /** The loop of `UnmarshalChain`. */
  method ReadPairs(u: Suite, ghost f: Format, flags: nat, n: nat, r: Stream, c: SourceChain)
    returns (err: Option<Error>)
    requires Realises(f, u) && c.suite == u && c.format == f && c.View() == EMPTY
    modifies r, c
    ensures match ParsePairs(f, flags, n, old(r.data))
            case Bad(e) => err == Some(e)
            case Ok(ps, rest) => err == None && r.data == rest && c.View() == AddPairs(f, ps)
    ensures c.file == old(c.file)
  {
    ghost var all := ParsePairs(f, flags, n, r.data);
    ghost var done: seq<Pair> := [];
    BehindNothing(all);
    for i := 0 to n
      invariant |done| == i && c.View() == AddPairs(f, done) && c.file == old(c.file)
      invariant Behind(done, ParsePairs(f, flags, n - i, r.data)) == all
    {
      BehindNext(f, flags, done, n - i, r.data);
      var p := ReadPair(u, f, flags, r);
      if p.Failure? { return Some(p.error); }
      c.AddPairAt(p.value, i);
      assert (done + [p.value])[..i] == done;
      done := done + [p.value];
    }
    assert all == Ok(done, r.data) by { assert done + [] == done; }
    return None;
  }

  method UnmarshalChain(u: Suite, ghost f: Format, r: Stream) returns (flags: nat, c: SourceChain, err: Option<Error>)
    requires Realises(f, u)
    modifies r
    ensures fresh(c) && c.suite == u && c.format == f && c.file == null
    ensures match ParseChain(f, old(r.data))
            case Bad(e) => err == Some(e)
            case Ok((fl, v), rest) => err == None && flags == fl && c.View() == v && r.data == rest
  {
    flags := 0;
    c := new SourceChain(u, f);
    var fl := ReadU64(r);
    if fl.Failure? { return flags, c, Some(fl.error); }
    flags := fl.value;
    var l := ReadU64(r);
    if l.Failure? { return flags, c, Some(l.error); }
    var n := if AsInt64(l.value) < 0 then 0 else AsInt64(l.value);
    err := ReadPairs(u, f, flags, n, r, c);
    if err.Some? { return; }
    if !HasFlag(flags, NO_HEADERS) {
      var h := UnmarshalHash(r);
      if h.Failure? { return flags, c, Some(h.error); }
      c.AddLastHash(h.value, n);
    }
  }

  /** The loop of `NewChainFromFile`: pairs until the end of the file. */
  method LoadAll(u: Suite, ghost f: Format, r: Stream, c: SourceChain) returns (err: Option<Error>, n: nat)
    requires ChainFormat.Lawful(f)
    requires Realises(f, u) && c.suite == u && c.format == f && c.View() == EMPTY
    modifies r, c
    ensures match LoadPairs(f, old(r.data), [])
            case Failure(e) => err == Some(e)
            case Success(ps) => err == None && n == |ps| && c.View() == AddPairs(f, ps)
    ensures c.file == old(c.file)
  {
    ghost var all := LoadPairs(f, r.data, []);
    ghost var done: seq<Pair> := [];
    n := 0;
    while true
      invariant |done| == n && c.View() == AddPairs(f, done) && c.file == old(c.file)
      invariant LoadPairs(f, r.data, done) == all
      decreases |r.data|
    {
      var p := ReadFilePair(u, f, r);
      if p == Failure(EOF) { break; }
      if p.Failure? { return Some(p.error), n; }
      c.AddPairAt(p.value, n);
      assert (done + [p.value])[..n] == done;
      done := done + [p.value];
      n := n + 1;
    }
    err := None;
  }

  method ReadFilePair(u: Suite, ghost f: Format, r: Stream) returns (res: Result<Pair>)
    requires Realises(f, u) && ChainFormat.Lawful(f)
    modifies r
    ensures Follows(ParsePair(f, 0, old(r.data)), res, r.data)
    ensures res.Success? ==> |r.data| < |old(r.data)|
  {
    res := ReadPair(u, f, 0, r);
    if res.Success? { PairShrinks(f, old(r.data)); }
  }

  ghost predicate AllHeaders(ps: seq<Pair>) {
    forall i :: 0 <= i < |ps| ==> ps[i].header.Some? && Writable(ps[i].header.value)
  }

  lemma {:induction false} HeaderEach(f: Format, ps: seq<Pair>)
    requires AllHeaders(ps)
    ensures |AddPairs(f, ps).headers| == |ps|
    ensures ps != [] ==> NoNil(AddPairs(f, ps).headers[|ps| - 1])
  {
    if ps != [] { HeaderEach(f, ps[..|ps| - 1]); }
  }

  lemma {:induction false} LoadedHeaders(f: Format, s: Bytes, done: seq<Pair>)
    requires ChainFormat.Lawful(f) && AllHeaders(done)
    ensures var ps := LoadPairs(f, s, done);
            ps.Success? ==> AllHeaders(ps.value)
    decreases |s|
  {
    var p := ParsePair(f, 0, s);
    if p.Ok? && |p.rest| < |s| {
      assert HeaderReadLaw(f, s);
      LoadedHeaders(f, p.rest, done + [p.value]);
    }
  }

  /** The end of `NewChainFromFile`: the hash of the last header has to be computed. */
  method HashLast(u: Suite, ghost f: Format, c: SourceChain, n: nat, ghost ps: seq<Pair>) returns (err: Option<Error>)
    requires Realises(f, u) && c.suite == u && c.format == f && AllHeaders(ps) && n == |ps|
             && c.View() == AddPairs(f, ps)
    modifies c
    ensures err == None && c.file == old(c.file)
    ensures n > 0 ==> |old(c.headers)| > 0
    ensures c.View() == if n == 0 then old(c.View())
                        else Finish(old(c.View()), HeaderHash(f, old(c.headers)[|old(c.headers)| - 1]), n)
  {
    HeaderEach(f, ps);
    if n > 0 {
      var hash := HeaderSum(u, f, c.headers[n - 1]);
      if hash.None? { return Some(NilHash); }
      c.AddLastHash(hash.value, n);
    }
    return None;
  }

  /** The chain of a file, which from now on grows with it. */
  method NewChainFromFile(u: Suite, ghost f: Format, file: Stream) returns (c: SourceChain, err: Option<Error>)
    requires Realises(f, u) && ChainFormat.Lawful(f)
    ensures fresh(c) && c.suite == u && c.format == f && file.data == old(file.data)
    ensures match LoadFile(f, file.data)
            case Failure(e) => err == Some(e)
            case Success(v) => err == None && c.View() == v && c.file == file
  {
    c := new SourceChain(u, f);
    var r := new Stream(file.data);
    var n: nat;
    err, n := LoadAll(u, f, r, c);
    if err.Some? { return; }
    LoadedHeaders(f, file.data, []);
    err := HashLast(u, f, c, n, LoadPairs(f, file.data, []).value);
    c.file := file;
  }

  /** `newHeader`: nothing is returned when signing fails or a hash is nil. */
  method NewHeader(u: Suite, ghost f: Format, now: Time, typ: Bytes, c: Content, prev: Bytes, prevOfType: Bytes,
                   change: Option<Change>)
    returns (r: Option<(Bytes, Header)>)
    requires Realises(f, u)
    ensures r.Some? <==> u.sign(EntryHash(f, c)).Some? && (change.Some? ==> change.value.hash.Some?)
    ensures r.Some? ==>
              var (hash, h) := r.value;
              && hash == HeaderHash(f, h) && NoNil(h)
              && h == Header(typ, now, prev, EntryHash(f, c), prevOfType, u.sign(EntryHash(f, c)).value,
                             if change.Some? then change.value.action else [],
                             if change.Some? then change.value.hash else Some(NULL_HASH))
  {
    var entryLink := u.hash(u.encode(c));
    var sig := u.sign(entryLink);
    if sig.None? { return None; }
    var ch := if change.Some? then change.value else Change([], Some(NULL_HASH));
    var h := Header(typ, now, prev, entryLink, prevOfType, sig.value, ch.action, ch.hash);
    var hash := HeaderSum(u, f, h);
    return if hash.Some? then Some((hash.value, h)) else None;
  }
}
