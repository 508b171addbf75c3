/**
 * A chain stream that is cut anywhere is refused (chain.go `UnmarshalChain`): unlike a file, it
 * says how many pairs are to come.
 */
module ChainCut {
  import opened Wire
  import opened ChainFormat
  import opened Chain
  import opened ChainCodec

  lemma PairCut(f: Format, flags: nat, p: Pair, k: nat)
    requires ChainFormat.Lawful(f) && Conforms(p, flags) && PairFits(f, p) && k < |PairBytes(f, p)|
    ensures ParsePair(f, flags, PairBytes(f, p)[..k]).Bad?
  {
    var h := if p.header.Some? then f.headerBytes(p.header.value) else [];
    var e := if p.entry.Some? then f.entryBytes(p.entry.value) else [];
    if p.header.Some? { assert HeaderLaw(f, p.header.value); }
    if p.entry.Some? { assert EntryLaw(f, p.entry.value); }
    if k < |h| {
      assert (h + e)[..k] == h[..k];
    } else {
      assert (h + e)[..k] == h + e[..k - |h|];
      assert p.header.None? ==> h + e[..k] == e[..k];
    }
  }

  lemma {:induction false} PairsCut(f: Format, flags: nat, ps: seq<Pair>, k: nat)
    requires ChainFormat.Lawful(f) && Sendable(f, ps, flags) && k < |PairsBytes(f, ps)|
    ensures ParsePairs(f, flags, |ps|, PairsBytes(f, ps)[..k]).Bad?
    decreases |ps|
  {
    var first, more := PairBytes(f, ps[0]), PairsBytes(f, ps[1..]);
    if k < |first| {
      PairCut(f, flags, ps[0], k);
      assert (first + more)[..k] == first[..k];
    } else {
      var rest := more[..k - |first|];
      PairRoundTrip(f, flags, ps[0], rest);
      PairsCut(f, flags, ps[1..], k - |first|);
      assert (first + more)[..k] == first + rest;
    }
  }

  /** The pairs, then what follows them, cut at `k`. */
  lemma BodyCut(f: Format, flags: nat, ps: seq<Pair>, tail: Bytes, k: nat)
    requires ChainFormat.Lawful(f) && Sendable(f, ps, flags) && k < |PairsBytes(f, ps)| + |tail|
    requires if HasFlag(flags, NO_HEADERS) then tail == [] else |tail| == HASH_SIZE
    ensures var r := ParsePairs(f, flags, |ps|, (PairsBytes(f, ps) + tail)[..k]);
            r.Bad? || (!HasFlag(flags, NO_HEADERS) && ParseHash(r.rest).Bad?)
  {
    var body := PairsBytes(f, ps);
    if k < |body| {
      PairsCut(f, flags, ps, k);
      assert (body + tail)[..k] == body[..k];
    } else {
      PairsRoundTrip(f, flags, ps, tail[..k - |body|]);
      assert (body + tail)[..k] == body + tail[..k - |body|];
    }
  }

  /** No part of a stream is accepted. */
  lemma StreamCut(f: Format, v: Value, flags: nat, whitelist: seq<Bytes>, private: seq<Bytes>, k: nat)
    requires ChainFormat.Lawful(f) && 0 < |v.headers| == |v.entries| == |v.hashes|
             && NoClash(v, flags, whitelist, private)
    requires EntriesFit(f, v) && HeadersFit(v, flags, whitelist)
    requires flags < Pow256(8) && |v.headers| < Pow256(8) / 2
    requires k < |ChainBytes(f, v, flags, whitelist, private)|
    ensures ParseChain(f, ChainBytes(f, v, flags, whitelist, private)[..k]).Bad?
  {
    var ps := Select(v, |v.headers|, flags, whitelist, private);
    var tail := if HasFlag(flags, NO_HEADERS) then [] else HashBytes(v.hashes[LastChosen(v, |v.headers|, whitelist)]);
    SelectSendable(f, v, |v.headers|, flags, whitelist, private);
    SelectLength(v, |v.headers|, flags, whitelist, private);
    CutParts(f, flags, ps, tail, k);
  }

  lemma CutParts(f: Format, flags: nat, ps: seq<Pair>, tail: Bytes, k: nat)
    requires ChainFormat.Lawful(f) && Sendable(f, ps, flags) && flags < Pow256(8) && |ps| < Pow256(8) / 2
    requires if HasFlag(flags, NO_HEADERS) then tail == [] else |tail| == HASH_SIZE
    requires k < 16 + |PairsBytes(f, ps)| + |tail|
    ensures ParseChain(f, (LittleEndian(flags, 8) + (LittleEndian(|ps|, 8) + (PairsBytes(f, ps) + tail)))[..k]).Bad?
  {
    var a, b, c := LittleEndian(flags, 8), LittleEndian(|ps|, 8), PairsBytes(f, ps) + tail;
    if k >= 8 {
      assert (a + (b + c))[..k] == a + (b + c)[..k - 8];
      U64RoundTrip(flags, (b + c)[..k - 8]);
      if k >= 16 {
        assert (b + c)[..k - 8] == b + c[..k - 16];
        U64RoundTrip(|ps|, c[..k - 16]);
        BodyCut(f, flags, ps, tail, k - 16);
      }
    }
  }
}
