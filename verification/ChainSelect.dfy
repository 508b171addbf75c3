/**
 * What a reader learns from a chain stream (chain.go `MarshalChain`), told by the headers of
 * the sender: which positions are in it, what their entries are, and that nothing else about
 * the entries gets out.
 */
module ChainSelect {
  import opened Collections
  import opened Wire
  import opened HeaderFormat
  import opened ChainFormat
  import opened Chain
  import opened ChainCodec
  import opened ChainTheorems

  /** The flags by their bits. */
  lemma FlagBits(flags: nat, b0: nat, b1: nat, b2: nat, r: nat)
    requires b0 <= 1 && b1 <= 1 && b2 <= 1 && flags == b0 + 2 * b1 + 4 * b2 + 8 * r
    ensures HasFlag(flags, NO_HEADERS) <==> b0 == 1
    ensures HasFlag(flags, NO_ENTRIES) <==> b1 == 1
    ensures HasFlag(flags, OMIT_DNA) <==> b2 == 1
  {
  }

  /** The first header is in every stream, the others when no types are asked for or theirs is. */
  predicate Picked(v: Value, i: int, types: seq<Bytes>) {
    0 <= i < |v.headers| && (i == 0 || types == [] || v.headers[i].typ in types)
  }

  /** The entry is replaced by the redaction text. */
  predicate Hidden(v: Value, i: nat, types: seq<Bytes>, private: seq<Bytes>)
    requires i < |v.headers|
  {
    v.headers[i].typ in private || (types != [] && v.headers[i].typ !in types)
  }

  /** What the reader finds in place of entry `i`. */
  function Shown(v: Value, i: nat, flags: nat, types: seq<Bytes>, private: seq<Bytes>): Content
    requires i < |v.headers| == |v.entries|
  {
    if Hidden(v, i, types, private) then REDACTED
    else if i == 0 && HasFlag(flags, OMIT_DNA) then "" else v.entries[i]
  }

  ghost predicate Selects(ix: seq<nat>, v: Value, n: nat, types: seq<Bytes>) {
    Increasing(ix) && forall i: nat :: i in ix <==> i < n && Picked(v, i, types)
  }

  lemma {:induction false} SelectionOf(v: Value, n: nat, flags: nat, types: seq<Bytes>, private: seq<Bytes>)
    returns (ix: seq<nat>)
    requires n <= |v.headers| == |v.entries|
    ensures Selects(ix, v, n, types) && |Select(v, n, flags, types, private)| == |ix|
    ensures forall j :: 0 <= j < |ix| ==>
              SentAt(Select(v, n, flags, types, private)[j], v, ix[j], flags, types, private)
    ensures n > 0 ==> ix != [] && LastChosen(v, n, types) == ix[|ix| - 1]
  {
    if n == 0 {
      ix := [];
    } else {
      var before := SelectionOf(v, n - 1, flags, types, private);
      SelectsNext(before, v, n, types);
      if Picked(v, n - 1, types) {
        ix := before + [n - 1];
        SelectNext(v, n, flags, types, private);
      } else {
        ix := before;
        SelectNext(v, n, flags, types, private);
      }
    }
  }

  /** The pair that was written for position `i`. */
  ghost predicate SentAt(p: Pair, v: Value, i: nat, flags: nat, types: seq<Bytes>, private: seq<Bytes>) {
    i < |v.headers| == |v.entries| && p == PairAt(v, i, flags, types, private)
  }

  lemma SelectNext(v: Value, n: nat, flags: nat, types: seq<Bytes>, private: seq<Bytes>)
    requires 0 < n <= |v.headers| == |v.entries|
    ensures Picked(v, n - 1, types) ==>
              && Select(v, n, flags, types, private) ==
                   Select(v, n - 1, flags, types, private) + [PairAt(v, n - 1, flags, types, private)]
              && LastChosen(v, n, types) == n - 1
    ensures !Picked(v, n - 1, types) ==>
              && n > 1
              && Select(v, n, flags, types, private) == Select(v, n - 1, flags, types, private)
              && LastChosen(v, n, types) == LastChosen(v, n - 1, types)
  {
    assert Chosen(v, n - 1, types) <==> Picked(v, n - 1, types);
    var ps := Select(v, n - 1, flags, types, private);
    assert ps + [] == ps;
  }

  lemma SelectsNext(before: seq<nat>, v: Value, n: nat, types: seq<Bytes>)
    requires 0 < n <= |v.headers| && Selects(before, v, n - 1, types)
    ensures Selects(if Picked(v, n - 1, types) then before + [n - 1] else before, v, n, types)
  {
    assert forall a :: 0 <= a < |before| ==> before[a] in before;
  }

  lemma PairShown(v: Value, i: nat, flags: nat, types: seq<Bytes>, private: seq<Bytes>)
    requires i < |v.headers| == |v.entries| && Picked(v, i, types)
    requires HasFlag(flags, NO_ENTRIES) ==> !Hidden(v, i, types, private)
    ensures var p := PairAt(v, i, flags, types, private);
            && p.header == (if HasFlag(flags, NO_HEADERS) then None else Some(v.headers[i]))
            && p.entry == (if HasFlag(flags, NO_ENTRIES) then None else Some(Shown(v, i, flags, types, private)))
  {
  }

  /** The headers and entries of the positions `ix`, as far as the flags let them through. */
  ghost predicate Received(w: Value, ix: seq<nat>, v: Value, flags: nat, types: seq<Bytes>, private: seq<Bytes>) {
    && (if HasFlag(flags, NO_HEADERS) then w.headers == []
        else |w.headers| == |ix| && forall j :: 0 <= j < |ix| ==>
               ix[j] < |v.headers| && w.headers[j] == v.headers[ix[j]])
    && (if HasFlag(flags, NO_ENTRIES) then w.entries == []
        else |w.entries| == |ix| && forall j :: 0 <= j < |ix| ==>
               ix[j] < |v.headers| == |v.entries| && w.entries[j] == Shown(v, ix[j], flags, types, private))
  }

  lemma BuiltReceived(f: Format, v: Value, flags: nat, types: seq<Bytes>, private: seq<Bytes>, ix: seq<nat>)
    requires |v.headers| == |v.entries| && NoClash(v, flags, types, private)
    requires var ps := Select(v, |v.headers|, flags, types, private);
             && |ps| == |ix| && Selects(ix, v, |v.headers|, types)
             && forall j :: 0 <= j < |ix| ==> SentAt(ps[j], v, ix[j], flags, types, private)
    ensures var ps := Select(v, |v.headers|, flags, types, private);
            Received(AddPairs(f, ps), ix, v, flags, types, private) && AllConform(ps, flags)
  {
    var ps := Select(v, |v.headers|, flags, types, private);
    forall j | 0 <= j < |ix|
      ensures && ps[j].header == (if HasFlag(flags, NO_HEADERS) then None else Some(v.headers[ix[j]]))
              && ps[j].entry ==
                   (if HasFlag(flags, NO_ENTRIES) then None else Some(Shown(v, ix[j], flags, types, private)))
    {
      assert ix[j] in ix && SentAt(ps[j], v, ix[j], flags, types, private);
      assert Chosen(v, ix[j], types);
      PairShown(v, ix[j], flags, types, private);
    }
    AddPairsBuilt(f, ps, flags);
    if !HasFlag(flags, NO_HEADERS) { HeadersAt(ps); }
    if !HasFlag(flags, NO_ENTRIES) { EntriesAt(ps); }
  }

  /**
   * What is read from a stream: exactly the picked positions in order, their headers and what is
   * shown of their entries as far as the flags allow, and the hash of the last of them.
   */
  lemma ReaderGets(f: Format, v: Value, flags: nat, types: seq<Bytes>, private: seq<Bytes>, rest: Bytes)
    returns (ix: seq<nat>, w: Value)
    requires ChainFormat.Lawful(f) && 0 < |v.headers| == |v.entries| == |v.hashes| && NoClash(v, flags, types, private)
    requires EntriesFit(f, v) && HeadersFit(v, flags, types)
    requires flags < Pow256(8) && |v.headers| < Pow256(8) / 2
    ensures ParseChain(f, ChainBytes(f, v, flags, types, private) + rest) == Ok((flags, w), rest)
    ensures Selects(ix, v, |v.headers|, types) && ix != [] && Received(w, ix, v, flags, types, private)
    ensures !HasFlag(flags, NO_HEADERS) ==>
              ix[|ix| - 1] < |v.hashes| && w.hashes != [] && w.hashes[|w.hashes| - 1] == v.hashes[ix[|ix| - 1]]
  {
    ChainRoundTrip(f, v, flags, types, private, rest);
    ix := SelectionOf(v, |v.headers|, flags, types, private);
    BuiltReceived(f, v, flags, types, private, ix);
    w := Rebuilt(f, v, flags, types, private);
  }

  // ---------- nothing else gets out ----------

  /** Nothing of the entry at `i` is written. */
  predicate Unseen(v: Value, i: nat, flags: nat, types: seq<Bytes>, private: seq<Bytes>)
    requires i < |v.headers|
  {
    || !Picked(v, i, types) || Hidden(v, i, types, private) || HasFlag(flags, NO_ENTRIES)
    || (i == 0 && HasFlag(flags, OMIT_DNA))
  }

  function Other(v: Value, i: nat, c: Content): Value
    requires i < |v.entries|
  {
    v.(entries := v.entries[i := c])
  }

  lemma {:induction false} UnseenSelect(v: Value, n: nat, i: nat, c: Content, flags: nat, types: seq<Bytes>,
                                        private: seq<Bytes>)
    requires n <= |v.headers| == |v.entries| && i < |v.headers| && Unseen(v, i, flags, types, private)
    ensures Select(Other(v, i, c), n, flags, types, private) == Select(v, n, flags, types, private)
    ensures LastChosen(Other(v, i, c), n, types) == LastChosen(v, n, types)
  {
    if n > 0 {
      UnseenSelect(v, n - 1, i, c, flags, types, private);
      var w := Other(v, i, c);
      assert Chosen(w, n - 1, types) <==> Chosen(v, n - 1, types);
      if Chosen(v, n - 1, types) {
        assert PairAt(w, n - 1, flags, types, private) == PairAt(v, n - 1, flags, types, private);
      }
    }
  }

  /** A private entry, one of a type not asked for, and the omitted DNA leave no trace in the bytes. */
  lemma UnseenLeavesNoTrace(f: Format, v: Value, i: nat, c: Content, flags: nat, types: seq<Bytes>, private: seq<Bytes>)
    requires |v.headers| == |v.entries| && i < |v.headers| && Unseen(v, i, flags, types, private)
    requires HasFlag(flags, NO_HEADERS) || LastChosen(v, |v.headers|, types) < |v.hashes|
    ensures LastChosen(Other(v, i, c), |v.headers|, types) == LastChosen(v, |v.headers|, types)
    ensures ChainBytes(f, Other(v, i, c), flags, types, private) == ChainBytes(f, v, flags, types, private)
  {
    UnseenSelect(v, |v.headers|, i, c, flags, types, private);
  }

  lemma PrivateLeavesNoTrace(f: Format, v: Value, i: nat, c: Content, flags: nat, types: seq<Bytes>,
                             private: seq<Bytes>)
    requires |v.headers| == |v.entries| && i < |v.headers| && v.headers[i].typ in private
    requires HasFlag(flags, NO_HEADERS) || LastChosen(v, |v.headers|, types) < |v.hashes|
    ensures LastChosen(Other(v, i, c), |v.headers|, types) == LastChosen(v, |v.headers|, types)
    ensures ChainBytes(f, Other(v, i, c), flags, types, private) == ChainBytes(f, v, flags, types, private)
  {
    UnseenLeavesNoTrace(f, v, i, c, flags, types, private);
  }

  /** An entry that is to be seen is seen: another one gives other bytes. */
  lemma SeenIsSent(f: Format, v: Value, i: nat, c: Content, flags: nat, types: seq<Bytes>, private: seq<Bytes>)
    requires ChainFormat.Lawful(f) && 0 < |v.headers| == |v.entries| == |v.hashes| && NoClash(v, flags, types, private)
    requires EntriesFit(f, v) && Storable(f, c) && HeadersFit(v, flags, types)
    requires flags < Pow256(8) && |v.headers| < Pow256(8) / 2
    requires i < |v.headers| && !Unseen(v, i, flags, types, private)
    requires HasFlag(flags, NO_HEADERS) || LastChosen(Other(v, i, c), |v.headers|, types) < |v.hashes|
    requires ChainBytes(f, Other(v, i, c), flags, types, private) == ChainBytes(f, v, flags, types, private)
    ensures c == v.entries[i]
  {
    var u := Other(v, i, c);
    OtherFits(f, v, i, c, flags, types, private);
    var ix, w := ReaderGets(f, v, flags, types, private, []);
    var iy, x := ReaderGets(f, u, flags, types, private, []);
    assert i in ix;
    var j :| 0 <= j < |ix| && ix[j] == i;
    SameSelection(ix, iy, v, u, types);
    assert w.entries[j] == Shown(v, i, flags, types, private) && x.entries[j] == Shown(u, i, flags, types, private);
  }

  lemma OtherFits(f: Format, v: Value, i: nat, c: Content, flags: nat, types: seq<Bytes>, private: seq<Bytes>)
    requires 0 < |v.headers| == |v.entries| == |v.hashes| && NoClash(v, flags, types, private)
    requires EntriesFit(f, v) && Storable(f, c) && HeadersFit(v, flags, types) && i < |v.headers|
    ensures var u := Other(v, i, c);
            NoClash(u, flags, types, private) && EntriesFit(f, u) && HeadersFit(u, flags, types)
  {
    var u := Other(v, i, c);
    LastChosenSame(v, u, |v.headers|, types);
    forall k | 0 <= k < |u.headers| ensures Chosen(u, k, types) <==> Chosen(v, k, types) {
    }
  }

  lemma {:induction false} LastChosenSame(v: Value, u: Value, n: nat, types: seq<Bytes>)
    requires u.headers == v.headers && n <= |v.headers|
    ensures LastChosen(u, n, types) == LastChosen(v, n, types)
  {
    if n > 0 { LastChosenSame(v, u, n - 1, types); }
  }

  /** The same positions in order are the same list. */
  lemma {:induction false} SameIncreasing(a: seq<nat>, b: seq<nat>)
    requires Increasing(a) && Increasing(b) && forall i: nat :: i in a <==> i in b
    ensures a == b
  {
    assert (b != [] ==> b[0] in a) && (a != [] ==> a[0] in b);
    if a != [] {
      assert a[0] == b[0];
      forall i: nat ensures i in a[1..] <==> i in b[1..] {
        InTail(a, i);
        InTail(b, i);
      }
      SameIncreasing(a[1..], b[1..]);
      assert a == [a[0]] + a[1..] && b == [b[0]] + b[1..];
    }
  }

  lemma InTail(a: seq<nat>, i: nat)
    requires a != [] && Increasing(a)
    ensures i in a[1..] <==> i in a && i != a[0]
  {
    assert a == [a[0]] + a[1..];
    assert forall k :: 0 <= k < |a[1..]| ==> a[1..][k] == a[k + 1] > a[0];
  }

  lemma SameSelection(ix: seq<nat>, iy: seq<nat>, v: Value, u: Value, types: seq<Bytes>)
    requires u.headers == v.headers && Selects(ix, v, |v.headers|, types) && Selects(iy, u, |u.headers|, types)
    ensures ix == iy
  {
    forall i: nat ensures i in ix <==> i in iy {
      assert Picked(v, i, types) <==> Picked(u, i, types);
    }
    SameIncreasing(ix, iy);
  }
}
