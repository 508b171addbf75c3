/**
 * Chain packages for validation (validate.go): a node sends a selection of its chain
 * without the DNA, and the receiver puts its own DNA back and validates the chain.
 */
module Package {
  import opened Collections
  import opened Wire
  import opened HeaderFormat
  import opened ChainFormat
  import opened Chain
  import opened ChainCodec
  import opened ChainTheorems
  import opened ChainStore

  const OPT_HEADERS := 1
  const OPT_ENTRIES := 2
  const OPT_FULL := 3

  /** The chain part of a packaging request: which parts, and of which entry types. */
  datatype Request = Request(chain: Option<nat>, types: seq<Bytes>)

  function MarshalFlags(opt: nat): nat {
    (if HasFlag(opt, OPT_HEADERS) then 0 else NO_HEADERS)
    + (if HasFlag(opt, OPT_ENTRIES) then 0 else NO_ENTRIES) + OMIT_DNA
  }

  lemma FlagsMeaning(opt: nat)
    ensures var flags := MarshalFlags(opt);
            && (HasFlag(flags, NO_HEADERS) <==> !HasFlag(opt, OPT_HEADERS))
            && (HasFlag(flags, NO_ENTRIES) <==> !HasFlag(opt, OPT_ENTRIES))
            && HasFlag(flags, OMIT_DNA)
  {
  }

  lemma FullFlags()
    ensures MarshalFlags(OPT_FULL) == OMIT_DNA
  {
  }

  predicate Packable(v: Value, req: Request) {
    req.chain.Some? && (HasFlag(req.chain.value, OPT_HEADERS) ==> v.headers != [])
  }

  lemma PackableLast(f: Format, v: Value, req: Request)
    requires Sound(f, v) && Packable(v, req)
    ensures HasFlag(MarshalFlags(req.chain.value), NO_HEADERS) || LastChosen(v, |v.headers|, req.types) < |v.hashes|
  {
    FlagsMeaning(req.chain.value);
  }

  lemma SoundNoNil(f: Format, v: Value)
    requires Sound(f, v)
    ensures forall i :: 0 <= i < |v.headers| ==> NoNil(v.headers[i])
  {
    forall i | 0 <= i < |v.headers|
      ensures NoNil(v.headers[i])
    {
      assert Linked(f, v, i);
    }
  }

  /** An empty chain cannot be packed with headers: there is no last hash. */
  method MakePackage(c: SourceChain, req: Request, private: seq<Bytes>) returns (r: Result<Option<Bytes>>)
    requires c.Ready()
    ensures req.chain.None? ==> r == Success(None)
    ensures req.chain.Some? && !Packable(c.View(), req) ==> r == Failure(Panic)
    ensures Packable(c.View(), req) ==>
              && (|| HasFlag(MarshalFlags(req.chain.value), NO_HEADERS)
                  || LastChosen(c.View(), |c.headers|, req.types) < |c.hashes|)
              && r == Success(Some(ChainBytes(c.format, c.View(), MarshalFlags(req.chain.value), req.types, private)))
  {
    if req.chain.None? { return Success(None); }
    var opt := req.chain.value;
    var flags := 0;
    if !HasFlag(opt, OPT_HEADERS) { flags := flags + NO_HEADERS; }
    if !HasFlag(opt, OPT_ENTRIES) { flags := flags + NO_ENTRIES; }
    flags := flags + OMIT_DNA;
    if HasFlag(opt, OPT_HEADERS) && c.headers == [] { return Failure(Panic); }
    PackableLast(c.format, c.View(), req);
    SoundNoNil(c.format, c.View());
    var b := new Stream([]);
    var err := c.MarshalChain(b, flags, req.types, private);
    assert err == None && flags == MarshalFlags(opt);
    ghost var bytes := ChainBytes(c.format, c.View(), flags, req.types, private);
    assert [] + bytes == bytes;
    return Success(Some(b.data));
  }

  // ---------- the receiver ----------

  lemma {:induction false} ParsedConform(f: Format, flags: nat, n: nat, s: Bytes)
    requires ParsePairs(f, flags, n, s).Ok?
    ensures |ParsePairs(f, flags, n, s).value| == n && AllConform(ParsePairs(f, flags, n, s).value, flags)
    decreases n
  {
    if n > 0 {
      var p := ParsePair(f, flags, s);
      assert Conforms(p.value, flags);
      ParsedConform(f, flags, n - 1, p.rest);
    }
  }

  lemma {:induction false} ConformLengths(f: Format, flags: nat, ps: seq<Pair>)
    requires AllConform(ps, flags)
    ensures var v := AddPairs(f, ps);
            && (!HasFlag(flags, NO_HEADERS) ==> |v.headers| == |ps| <= |v.hashes| + 1)
            && (!HasFlag(flags, NO_ENTRIES) ==> |v.entries| == |ps|)
  {
    if ps != [] {
      assert Conforms(ps[|ps| - 1], flags);
      ConformLengths(f, flags, ps[..|ps| - 1]);
    }
  }

  /** However a stream was made, what was read of it is complete enough to validate. */
  lemma ParsedLengths(f: Format, b: Bytes)
    requires ParseChain(f, b).Ok?
    ensures var (flags, v) := ParseChain(f, b).value;
            !HasFlag(flags, NO_HEADERS) ==>
              |v.headers| <= |v.hashes| && (!HasFlag(flags, NO_ENTRIES) ==> |v.headers| == |v.entries|)
  {
    var flags := ParseU64(b).value;
    var l := ParseU64(ParseU64(b).rest);
    var n := if AsInt64(l.value) < 0 then 0 else AsInt64(l.value);
    ParsedConform(f, flags, n, l.rest);
    ConformLengths(f, flags, ParsePairs(f, flags, n, l.rest).value);
  }

  /** What the receiver makes of the bytes with its own first entry. */
  function Unpack(f: Format, dna: Content, b: Bytes): Result<Value> {
    match ParseChain(f, b)
    case Bad(e) => Failure(e)
    case Ok((flags, v), _) =>
      ParsedLengths(f, b);
      if !HasFlag(flags, NO_ENTRIES) && v.entries == [] then Failure(Panic)
      else
        var w := if HasFlag(flags, NO_ENTRIES) then v else v.(entries := v.entries[0 := dna]);
        if HasFlag(flags, NO_HEADERS) || Validates(f, w, HasFlag(flags, NO_ENTRIES)) then Success(w)
        else Failure(Mismatch)
  }

  /**
   * Whoever made the bytes, an accepted chain is the one that was read, its first entry the
   * receiver's own, and it validates when it has headers.
   */
  lemma AcceptedIsValid(f: Format, dna: Content, b: Bytes)
    requires Unpack(f, dna, b).Success?
    ensures ParseChain(f, b).Ok?
    ensures var (flags, v), w := ParseChain(f, b).value, Unpack(f, dna, b).value;
            && w == v.(entries := w.entries)
            && (if HasFlag(flags, NO_ENTRIES) then w.entries == v.entries
                else |w.entries| == |v.entries| > 0 && w.entries[0] == dna && w.entries[1..] == v.entries[1..])
            && (!HasFlag(flags, NO_HEADERS) ==>
                  && |w.headers| <= |w.hashes| && (!HasFlag(flags, NO_ENTRIES) ==> |w.headers| == |w.entries|)
                  && Validates(f, w, HasFlag(flags, NO_ENTRIES)))
  {
    ParsedLengths(f, b);
  }

  /** No package, no chain; otherwise the chain is rebuilt, completed and validated. */
  method MakeValidationPackage(u: Suite, ghost f: Format, dna: Content, pkg: Option<Bytes>)
    returns (c: SourceChain?, err: Option<Error>)
    requires Realises(f, u)
    ensures c == null || fresh(c)
    ensures pkg.None? ==> c == null && err == None
    ensures pkg.Some? ==>
              match Unpack(f, dna, pkg.value)
              case Failure(e) => err == Some(e)
              case Success(v) => err == None && c != null && c.View() == v && c.suite == u && c.format == f
  {
    if pkg.None? { return null, None; }
    var r := new Stream(pkg.value);
    var flags: nat;
    flags, c, err := UnmarshalChain(u, f, r);
    if err.Some? { return; }
    ParsedLengths(f, pkg.value);
    if !HasFlag(flags, NO_ENTRIES) {
      if c.entries == [] { return c, Some(Panic); }
      c.entries := c.entries[0 := dna];
    }
    if !HasFlag(flags, NO_HEADERS) {
      var ok := c.Validate(HasFlag(flags, NO_ENTRIES));
      if !ok { return c, Some(Mismatch); }
    }
  }

  // ---------- what the receiver gets of a full package ----------

  ghost predicate NonePrivate(v: Value, private: seq<Bytes>) {
    forall i :: 0 <= i < |v.headers| ==> v.headers[i].typ !in private
  }

  lemma {:induction false} SelectAll(v: Value, n: nat, private: seq<Bytes>)
    requires n <= |v.headers| == |v.entries| && NonePrivate(v, private)
    ensures n > 0 ==> Select(v, n, OMIT_DNA, [], private) == Zip(v.headers[..n], v.entries[..n][0 := ""])
    ensures n > 0 ==> LastChosen(v, n, []) == n - 1
  {
    if n > 1 {
      SelectAll(v, n - 1, private);
      var cs := v.entries[..n][0 := ""];
      assert cs[..n - 1] == v.entries[..n - 1][0 := ""] && cs == cs[..n - 1] + [v.entries[n - 1]];
      assert v.headers[..n] == v.headers[..n - 1] + [v.headers[n - 1]];
      ZipAppend(v.headers[..n - 1], cs[..n - 1], v.headers[n - 1], v.entries[n - 1]);
    }
  }

  // ---------- what the receiver gets of a part ----------

  lemma {:induction false} SelectEach(v: Value, n: nat, flags: nat, private: seq<Bytes>)
    requires n <= |v.headers| == |v.entries| && NonePrivate(v, private)
    ensures var ps := Select(v, n, flags, [], private);
            |ps| == n && forall j :: 0 <= j < n ==> ps[j] == PairAt(v, j, flags, [], private)
    ensures n > 0 ==> LastChosen(v, n, []) == n - 1
  {
    if n > 0 { SelectEach(v, n - 1, flags, private); }
  }

  lemma PartBuilt(f: Format, v: Value, flags: nat, private: seq<Bytes>)
    requires 0 < |v.headers| == |v.entries| && NonePrivate(v, private) && HasFlag(flags, OMIT_DNA)
    ensures BuiltFrom(f, AddPairs(f, Select(v, |v.headers|, flags, [], private)),
                      if HasFlag(flags, NO_HEADERS) then [] else v.headers,
                      if HasFlag(flags, NO_ENTRIES) then [] else v.entries[0 := ""])
    ensures LastChosen(v, |v.headers|, []) == |v.headers| - 1 && NoClash(v, flags, [], private)
    ensures |Select(v, |v.headers|, flags, [], private)| == |v.headers|
  {
    var ps := Select(v, |v.headers|, flags, [], private);
    SelectEach(v, |v.headers|, flags, private);
    assert AllConform(ps, flags);
    AddPairsBuilt(f, ps, flags);
    if !HasFlag(flags, NO_HEADERS) { HeadersAt(ps); assert HeadersOf(ps) == v.headers; }
    if !HasFlag(flags, NO_ENTRIES) { EntriesAt(ps); assert EntriesOf(ps) == v.entries[0 := ""]; }
  }

  lemma PartFits(f: Format, v: Value)
    requires ChainFormat.Lawful(f) && Sound(f, v) && Fits(f, v)
    ensures EntriesFit(f, v) && forall i :: 0 <= i < |v.headers| ==> GoodHash(v.hashes[i])
  {
    forall i | 0 <= i < |v.headers| ensures GoodHash(v.hashes[i]) {
      assert Linked(f, v, i) && HashLaw(f, f.headerBytes(v.headers[i]));
    }
  }

  lemma PartFlags()
    ensures var flags := MarshalFlags(OPT_HEADERS);
            && flags == NO_ENTRIES + OMIT_DNA < Pow256(8) && HasFlag(flags, OMIT_DNA)
            && HasFlag(flags, NO_ENTRIES) && !HasFlag(flags, NO_HEADERS)
    ensures var flags := MarshalFlags(OPT_ENTRIES);
            && flags == NO_HEADERS + OMIT_DNA < Pow256(8) && HasFlag(flags, OMIT_DNA)
            && !HasFlag(flags, NO_ENTRIES) && HasFlag(flags, NO_HEADERS)
  {
  }

  /** What the receiver reads of a part. */
  lemma PartParse(f: Format, v: Value, flags: nat, private: seq<Bytes>)
    requires ChainFormat.Lawful(f) && Sound(f, v) && 0 < |v.headers| < Pow256(8) / 2 && NonePrivate(v, private)
             && Fits(f, v)
    requires HasFlag(flags, OMIT_DNA) && flags < Pow256(8)
    ensures LastChosen(v, |v.headers|, []) < |v.hashes|
    ensures ParseChain(f, ChainBytes(f, v, flags, [], private)) == Ok((flags, Rebuilt(f, v, flags, [], private)), [])
  {
    var b := ChainBytes(f, v, flags, [], private);
    PartFits(f, v);
    PartBuilt(f, v, flags, private);
    ChainRoundTrip(f, v, flags, [], private, []);
    assert b + [] == b;
  }

  lemma HeadersRebuilt(f: Format, v: Value, flags: nat, private: seq<Bytes>)
    requires HashLaws(f) && Sound(f, v) && 0 < |v.headers| && NonePrivate(v, private)
    requires HasFlag(flags, OMIT_DNA) && HasFlag(flags, NO_ENTRIES) && !HasFlag(flags, NO_HEADERS)
    ensures Rebuilt(f, v, flags, [], private) == v.(entries := [])
    ensures Validates(f, v.(entries := []), true)
  {
    var w := v.(entries := []);
    PartBuilt(f, v, flags, private);
    SoundLinks(f, v);
    FinishSound(AddPairs(f, Select(v, |v.headers|, flags, [], private)), w);
    SoundValidates(f, v);
    forall i | 0 <= i < |w.headers| ensures ValidAt(f, w, i, true) {
      assert ValidAt(f, v, i, false);
    }
  }

  lemma UnpackPart(f: Format, w: Value, flags: nat, dna: Content, b: Bytes)
    requires ParseChain(f, b) == Ok((flags, w), []) && (HasFlag(flags, NO_ENTRIES) || w.entries != [])
    requires HasFlag(flags, NO_HEADERS) ||
               (HasFlag(flags, NO_ENTRIES) && |w.headers| <= |w.hashes| && Validates(f, w, true))
    ensures Unpack(f, dna, b) ==
              Success(if HasFlag(flags, NO_ENTRIES) then w else w.(entries := w.entries[0 := dna]))
  {
  }

  /** A package of the headers alone rebuilds the chain and its indexes without entries, whatever the DNA. */
  lemma HeadersPackage(f: Format, v: Value, dna: Content, private: seq<Bytes>)
    requires ChainFormat.Lawful(f) && Sound(f, v) && 0 < |v.headers| < Pow256(8) / 2 && NonePrivate(v, private)
             && Fits(f, v)
    ensures LastChosen(v, |v.headers|, []) < |v.hashes|
    ensures Unpack(f, dna, ChainBytes(f, v, MarshalFlags(OPT_HEADERS), [], private)) == Success(v.(entries := []))
  {
    var flags := MarshalFlags(OPT_HEADERS);
    PartFlags();
    PartParse(f, v, flags, private);
    HeadersRebuilt(f, v, flags, private);
    UnpackPart(f, v.(entries := []), flags, dna, ChainBytes(f, v, flags, [], private));
  }

  /** A package of the entries alone brings them in order, the DNA from the receiver, and is not validated. */
  lemma EntriesPackage(f: Format, v: Value, dna: Content, private: seq<Bytes>)
    requires ChainFormat.Lawful(f) && Sound(f, v) && 0 < |v.headers| < Pow256(8) / 2 && NonePrivate(v, private)
             && Fits(f, v)
    ensures LastChosen(v, |v.headers|, []) < |v.hashes|
    ensures var r := Unpack(f, dna, ChainBytes(f, v, MarshalFlags(OPT_ENTRIES), [], private));
            r.Success? && r.value.headers == [] && r.value.entries == v.entries[0 := dna]
  {
    var flags := MarshalFlags(OPT_ENTRIES);
    PartFlags();
    PartParse(f, v, flags, private);
    PartBuilt(f, v, flags, private);
    UnpackPart(f, Rebuilt(f, v, flags, [], private), flags, dna, ChainBytes(f, v, flags, [], private));
    assert v.entries[0 := ""][0 := dna] == v.entries[0 := dna];
  }

  /** Other entries under the same headers give the same hashes and indexes. */
  lemma RebuiltWith(f: Format, v: Value, cs: seq<Content>)
    requires HashLaws(f) && Sound(f, v) && |v.headers| == |cs| > 0
    ensures Finish(AddPairs(f, Zip(v.headers, cs)), v.hashes[|v.hashes| - 1], |v.headers|) == v.(entries := cs)
  {
    AddPairsFull(f, v.headers, cs);
    SoundLinks(f, v);
    FinishSound(AddPairs(f, Zip(v.headers, cs)), v.(entries := cs));
  }

  lemma OtherDna(f: Format, v: Value, dna: Content)
    requires Sound(f, v) && |v.headers| > 0
    ensures Validates(f, v.(entries := v.entries[0 := dna]), false) <==> EntryHash(f, dna) == EntryHash(f, v.entries[0])
  {
    var w := v.(entries := v.entries[0 := dna]);
    assert Linked(f, v, 0);
    SoundValidates(f, v);
    if EntryHash(f, dna) == EntryHash(f, v.entries[0]) {
      forall i | 0 <= i < |w.headers| ensures ValidAt(f, w, i, false) {
        assert ValidAt(f, v, i, false);
      }
    } else {
      assert !ValidAt(f, w, 0, false);
    }
  }

  /**
   * A full package rebuilds the sender's chain, indexes and all, with the receiver's DNA, exactly
   * when its hash is the same.
   */
  lemma FullPackage(f: Format, v: Value, dna: Content, private: seq<Bytes>)
    requires ChainFormat.Lawful(f) && Sound(f, v) && 0 < |v.headers| < Pow256(8) / 2 && NonePrivate(v, private)
             && Fits(f, v)
    ensures MarshalFlags(OPT_FULL) == OMIT_DNA && LastChosen(v, |v.headers|, []) < |v.hashes|
    ensures Unpack(f, dna, ChainBytes(f, v, OMIT_DNA, [], private))
            == if EntryHash(f, dna) == EntryHash(f, v.entries[0]) then Success(v.(entries := v.entries[0 := dna]))
               else Failure(Mismatch)
  {
    FullFlags();
    FullParse(f, v, private);
    OtherDna(f, v, dna);
    UnpackFull(f, v, dna, ChainBytes(f, v, OMIT_DNA, [], private));
  }

  /** So unless the two DNA entries collide, exactly the sender's chain is accepted, and only by a node with its DNA. */
  lemma FullPackageNeedsDna(f: Format, v: Value, dna: Content, private: seq<Bytes>)
    requires ChainFormat.Lawful(f) && Sound(f, v) && 0 < |v.headers| < Pow256(8) / 2 && NonePrivate(v, private)
             && Fits(f, v)
    requires NoCollision(f, {f.encode(dna), f.encode(v.entries[0])})
    ensures LastChosen(v, |v.headers|, []) < |v.hashes|
    ensures Unpack(f, dna, ChainBytes(f, v, OMIT_DNA, [], private))
            == if dna == v.entries[0] then Success(v) else Failure(Mismatch)
  {
    FullPackage(f, v, dna, private);
    SameDna(f, v, dna);
  }

  lemma SameDna(f: Format, v: Value, dna: Content)
    requires EntryLaws(f) && |v.entries| > 0 && NoCollision(f, {f.encode(dna), f.encode(v.entries[0])})
    ensures EntryHash(f, dna) == EntryHash(f, v.entries[0]) <==> dna == v.entries[0]
    ensures dna == v.entries[0] ==> v.(entries := v.entries[0 := dna]) == v
  {
    assert EncodeLaw(f, dna, v.entries[0]);
    assert dna == v.entries[0] ==> v.entries[0 := dna] == v.entries;
  }

  lemma UnpackFull(f: Format, v: Value, dna: Content, b: Bytes)
    requires 0 < |v.headers| == |v.entries| == |v.hashes|
    requires ParseChain(f, b) == Ok((OMIT_DNA, v.(entries := v.entries[0 := ""])), [])
    ensures var w := v.(entries := v.entries[0 := dna]);
            Unpack(f, dna, b) == if Validates(f, w, false) then Success(w) else Failure(Mismatch)
  {
    assert v.entries[0 := ""][0 := dna] == v.entries[0 := dna];
  }

  lemma FullParse(f: Format, v: Value, private: seq<Bytes>)
    requires ChainFormat.Lawful(f) && Sound(f, v) && 0 < |v.headers| < Pow256(8) / 2 && NonePrivate(v, private)
             && Fits(f, v)
    ensures ParseChain(f, ChainBytes(f, v, OMIT_DNA, [], private))
            == Ok((OMIT_DNA, v.(entries := v.entries[0 := ""])), [])
  {
    var n := |v.headers|;
    var b := ChainBytes(f, v, OMIT_DNA, [], private);
    forall i | 0 <= i < n ensures GoodHash(v.hashes[i]) {
      assert Linked(f, v, i) && HashLaw(f, f.headerBytes(v.headers[i]));
    }
    ChainRoundTrip(f, v, OMIT_DNA, [], private, []);
    assert b + [] == b;
    SelectAll(v, n, private);
    assert v.headers[..n] == v.headers && v.entries[..n] == v.entries;
    RebuiltWith(f, v, v.entries[0 := ""]);
  }
}
