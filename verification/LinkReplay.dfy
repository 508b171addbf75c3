/**
 * When a lookup of links agrees with the replay of the link history: exactly when no link
 * or tag with ':' gets in its way.
 */
module LinkReplay {
  import opened Collections
  import opened StoreHistory
  import opened LinkText
  import opened DhtStore
  import opened LinkQuery

  /** Where a record belongs; several links and tags may lead to the same rest. */
  datatype Place = Place(base: string, rest: string)

  ghost predicate At(key: string, p: Place) {
    Plain(p.base) && |Split(p.rest)| >= 2 && key == RestKey(p.base, p.rest)
  }

  ghost predicate AllAt(order: seq<string>, places: seq<Place>) {
    |order| == |places| && forall i :: 0 <= i < |order| ==> At(order[i], places[i])
  }

  lemma KeyPlace(h: seq<Op>, key: string) returns (p: Place)
    requires HashBases(h) && EventsAt(h, key) != []
    ensures At(key, p)
  {
    var b, l, t := LastOwner(h, key);
    KeyByRest(b, l, t);
    RestParts(l, t);
    p := Place(b, Rest(l, t));
  }

  lemma {:induction false} PlacesOf(h: seq<Op>, links: map<string, seq<Event>>, order: seq<string>)
    returns (places: seq<Place>)
    requires HashBases(h) && LinksOk(links, h) && forall i :: 0 <= i < |order| ==> order[i] in links
    ensures AllAt(order, places)
  {
    if order == [] {
      places := [];
    } else {
      var n := |order| - 1;
      var before := PlacesOf(h, links, order[..n]);
      assert LinkOk(links, h, order[n]);
      var p := KeyPlace(h, order[n]);
      places := before + [p];
      forall i | 0 <= i < |order| ensures At(order[i], places[i]) {
        if i < n { assert At(order[..n][i], before[i]); }
      }
    }
  }

  // ---------- the scan, record by record ----------

  function RecordEvents(h: seq<Op>, p: Place): seq<Event> {
    EventsAt(h, RestKey(p.base, p.rest))
  }

  function Scanned(h: seq<Op>, p: Place, base: string, tag: string, mask: nat): Option<TaggedHash> {
    var x := Split(p.rest);
    if p.base == base && |x| >= 2 then Contribution(RecordEvents(h, p), x[1], x[0], tag, mask) else None
  }

  function ScanList(h: seq<Op>, places: seq<Place>, base: string, tag: string, mask: nat): seq<TaggedHash> {
    if places == [] then []
    else
      var r := ScanList(h, places[..|places| - 1], base, tag, mask);
      var hit := Scanned(h, places[|places| - 1], base, tag, mask);
      if hit.Some? then r + [hit.value] else r
  }

  lemma HitIsScanned(h: seq<Op>, key: string, p: Place, base: string, tag: string, mask: nat)
    requires At(key, p)
    ensures |Split(key)| >= 4
    ensures Hit(EventsAt(h, key), key, base, tag, mask) == Scanned(h, p, base, tag, mask)
  {
    SplitRestKey(p.base, p.rest);
    var x, y := Split(key), Split(p.rest);
    assert x[1] == p.base && x[2] == y[0] && x[3] == y[1];
  }

  lemma {:induction false} ScanIsList(h: seq<Op>, links: map<string, seq<Event>>, order: seq<string>,
                                      places: seq<Place>, base: string, tag: string, mask: nat)
    requires LinksOk(links, h) && KeysSplit(order, links) && AllAt(order, places)
    ensures ScanLinks(links, order, base, tag, mask) == ScanList(h, places, base, tag, mask)
  {
    if order != [] {
      var n := |order| - 1;
      assert AllAt(order[..n], places[..n]);
      ScanIsList(h, links, order[..n], places[..n], base, tag, mask);
      assert LinkOk(links, h, order[n]) && At(order[n], places[n]);
      HitIsScanned(h, order[n], places[n], base, tag, mask);
    }
  }

  // ---------- the wanted links among the records ----------

  /** The only link and tag of a record whose rest has one ':'. */
  function Single(p: Place): (string, string)
    requires |Split(p.rest)| == 2
  {
    (Split(p.rest)[0], Split(p.rest)[1])
  }

  predicate WantedAt(h: seq<Op>, p: Place, base: string, tag: string, mask: nat) {
    p.base == base && |Split(p.rest)| == 2 && Wanted(h, base, tag, mask, Single(p))
  }

  function WantedList(h: seq<Op>, places: seq<Place>, base: string, tag: string, mask: nat): seq<(string, string)> {
    if places == [] then []
    else
      var r := WantedList(h, places[..|places| - 1], base, tag, mask);
      var p := places[|places| - 1];
      if WantedAt(h, p, base, tag, mask) then r + [Single(p)] else r
  }

  predicate PlainPair(q: (string, string)) {
    Plain(q.0) && Plain(q.1)
  }

  lemma SingleIff(p: Place, q: (string, string))
    ensures |Split(p.rest)| == 2 && Single(p) == q <==> PlainPair(q) && p.rest == Rest(q.0, q.1)
  {
    RestParts(q.0, q.1);
    if |Split(p.rest)| == 2 { TwoParts(p.rest); }
  }

  lemma {:induction false} WantedListMembers(h: seq<Op>, places: seq<Place>, base: string, tag: string, mask: nat,
                                             q: (string, string))
    ensures q in WantedList(h, places, base, tag, mask) <==>
            Wanted(h, base, tag, mask, q) && PlainPair(q) && Place(base, Rest(q.0, q.1)) in places
  {
    if places != [] {
      var n := |places| - 1;
      WantedListMembers(h, places[..n], base, tag, mask, q);
      SingleIff(places[n], q);
      assert places == places[..n] + [places[n]];
    }
  }

  lemma {:induction false} WantedListDistinct(h: seq<Op>, places: seq<Place>, base: string, tag: string, mask: nat)
    requires Distinct(places)
    ensures Distinct(WantedList(h, places, base, tag, mask))
  {
    if places != [] {
      var n := |places| - 1;
      var before, p := places[..n], places[n];
      WantedListDistinct(h, before, base, tag, mask);
      assert forall i :: 0 <= i < n ==> before[i] == places[i] != p;
      if WantedAt(h, p, base, tag, mask) {
        WantedListMembers(h, before, base, tag, mask, Single(p));
        SingleIff(p, Single(p));
      }
    }
  }

  lemma PlacesDistinct(order: seq<string>, places: seq<Place>)
    requires AllAt(order, places) && Distinct(order)
    ensures Distinct(places)
  {
    forall i, j | 0 <= i < j < |places| ensures places[i] != places[j] {
      assert At(order[i], places[i]) && At(order[j], places[j]);
    }
  }

  lemma RecordedIsPlaced(h: seq<Op>, links: map<string, seq<Event>>, order: seq<string>, places: seq<Place>,
                         b: string, l: string, t: string)
    requires LinksOk(links, h) && Lists(order, links.Keys) && AllAt(order, places)
    requires Plain(b) && EventsAt(h, LinkKey(b, l, t)) != []
    ensures Place(b, Rest(l, t)) in places
  {
    var key := LinkKey(b, l, t);
    assert LinkOk(links, h, key);
    assert key in order;
    var i :| 0 <= i < |order| && order[i] == key;
    assert At(order[i], places[i]);
    KeyByRest(b, l, t);
    KeyParts(b, Rest(l, t), places[i].base, places[i].rest);
  }

  lemma WantedListEnumerates(h: seq<Op>, links: map<string, seq<Event>>, order: seq<string>, places: seq<Place>,
                             base: string, tag: string, mask: nat)
    requires LinksOk(links, h) && Lists(order, links.Keys) && AllAt(order, places) && Plain(base)
    requires forall q :: Wanted(h, base, tag, mask, q) ==> PlainPair(q)
    ensures Enumerates(WantedList(h, places, base, tag, mask), h, base, tag, mask)
  {
    PlacesDistinct(order, places);
    WantedListDistinct(h, places, base, tag, mask);
    forall q ensures q in WantedList(h, places, base, tag, mask) <==> Wanted(h, base, tag, mask, q) {
      WantedListMembers(h, places, base, tag, mask, q);
      if Wanted(h, base, tag, mask, q) {
        EventsInRecord(h, base, q.0, q.1);
        RecordedIsPlaced(h, links, order, places, base, q.0, q.1);
      }
    }
  }

  // ---------- agreement ----------

  /** What the scan takes for the tag. */
  function SecondPart(l: string, t: string): string {
    RestParts(l, t);
    Split(Rest(l, t))[1]
  }

  /** The most recent event of the record meets the mask, whatever link and tag it was for. */
  predicate RecordCurrent(h: seq<Op>, base: string, l: string, t: string, mask: nat) {
    var es := EventsAt(h, LinkKey(base, l, t));
    es != [] && Meets(es[|es| - 1].status, MaskOf(mask))
  }

  /** A link or tag with ':' that is wanted, or whose record is taken for a wanted one. */
  predicate Confused(h: seq<Op>, base: string, tag: string, mask: nat, l: string, t: string) {
    && !PlainPair((l, t))
    && (|| Wanted(h, base, tag, mask, (l, t))
        || (tag != "" && tag == SecondPart(l, t) && RecordCurrent(h, base, l, t, mask)))
  }

  ghost predicate Clear(h: seq<Op>, base: string, tag: string, mask: nat) {
    forall l, t :: !Confused(h, base, tag, mask, l, t)
  }

  /** A record with one ':' is scanned as the replay demands. */
  lemma SingleAgrees(h: seq<Op>, p: Place, base: string, tag: string, mask: nat)
    requires HashBases(h) && Plain(p.base) && |Split(p.rest)| == 2
    ensures Scanned(h, p, base, tag, mask).Some? <==> WantedAt(h, p, base, tag, mask)
    ensures WantedAt(h, p, base, tag, mask) ==> AnswerAt(Scanned(h, p, base, tag, mask).value, Single(p), h, base, tag)
  {
    var q := Single(p);
    SingleIff(p, q);
    KeyByRest(p.base, q.0, q.1);
    EventsByKey(h, p.base, q.0, q.1);
  }

  /** Any other record contributes only when something is confused. */
  lemma OthersConfused(h: seq<Op>, p: Place, base: string, tag: string, mask: nat)
    requires HashBases(h) && Plain(p.base) && |Split(p.rest)| != 2 && Scanned(h, p, base, tag, mask).Some?
    ensures !Clear(h, base, tag, mask)
  {
    var key := RestKey(p.base, p.rest);
    var b, l, t := LastOwner(h, key);
    KeyByRest(b, l, t);
    KeyParts(b, Rest(l, t), p.base, p.rest);
    RestParts(l, t);
    assert Confused(h, base, tag, mask, l, t);
  }

  lemma ClearAt(h: seq<Op>, p: Place, base: string, tag: string, mask: nat)
    requires HashBases(h) && Plain(p.base) && Clear(h, base, tag, mask)
    ensures Scanned(h, p, base, tag, mask).Some? <==> WantedAt(h, p, base, tag, mask)
    ensures WantedAt(h, p, base, tag, mask) ==> AnswerAt(Scanned(h, p, base, tag, mask).value, Single(p), h, base, tag)
  {
    if |Split(p.rest)| == 2 {
      SingleAgrees(h, p, base, tag, mask);
    } else if Scanned(h, p, base, tag, mask).Some? {
      OthersConfused(h, p, base, tag, mask);
    }
  }

  ghost predicate PlainBases(places: seq<Place>) {
    forall i :: 0 <= i < |places| ==> Plain(places[i].base)
  }

  lemma {:induction false} ClearAgrees(h: seq<Op>, places: seq<Place>, base: string, tag: string, mask: nat)
    requires HashBases(h) && PlainBases(places) && Clear(h, base, tag, mask)
    ensures var rs, ps := ScanList(h, places, base, tag, mask), WantedList(h, places, base, tag, mask);
            |rs| == |ps| && forall i :: 0 <= i < |ps| ==> AnswerAt(rs[i], ps[i], h, base, tag)
  {
    if places != [] {
      var n := |places| - 1;
      ClearAgrees(h, places[..n], base, tag, mask);
      ClearAt(h, places[n], base, tag, mask);
    }
  }

  // ---------- disagreement ----------

  lemma {:induction false} ScanIsPlain(h: seq<Op>, places: seq<Place>, base: string, tag: string, mask: nat)
    ensures forall r :: r in ScanList(h, places, base, tag, mask) ==> Plain(r.hash) && Plain(r.tag)
    ensures !Plain(tag) ==> ScanList(h, places, base, tag, mask) == []
  {
    if places != [] { ScanIsPlain(h, places[..|places| - 1], base, tag, mask); }
  }

  ghost predicate Extra(h: seq<Op>, p: Place, base: string, tag: string, mask: nat) {
    Scanned(h, p, base, tag, mask).Some? && !WantedAt(h, p, base, tag, mask)
  }

  /** Everything wanted is found, and every other hit makes the scan longer. */
  lemma {:induction false} ScanLonger(h: seq<Op>, places: seq<Place>, base: string, tag: string, mask: nat)
    requires HashBases(h) && PlainBases(places)
    ensures |WantedList(h, places, base, tag, mask)| <= |ScanList(h, places, base, tag, mask)|
    ensures (exists p :: p in places && Extra(h, p, base, tag, mask)) ==>
              |WantedList(h, places, base, tag, mask)| < |ScanList(h, places, base, tag, mask)|
  {
    if places != [] {
      var n := |places| - 1;
      ScanLonger(h, places[..n], base, tag, mask);
      if |Split(places[n].rest)| == 2 { SingleAgrees(h, places[n], base, tag, mask); }
      assert places == places[..n] + [places[n]];
    }
  }

  lemma AnswersContain(rs: seq<TaggedHash>, pairs: seq<(string, string)>, h: seq<Op>, base: string, tag: string,
                       mask: nat, p: (string, string))
    requires Answers(rs, pairs, h, base, tag, mask) && Wanted(h, base, tag, mask, p)
    ensures exists r :: r in rs && r.hash == p.0 && r.tag == (if tag == "" then p.1 else "")
  {
    assert p in pairs;
    var i :| 0 <= i < |pairs| && pairs[i] == p;
    assert AnswerAt(rs[i], pairs[i], h, base, tag);
    assert rs[i] in rs;
  }

  /** Whatever the scan answers fully has no ':' in it. */
  lemma AnsweredIsPlain(h: seq<Op>, places: seq<Place>, base: string, tag: string, mask: nat,
                        pairs: seq<(string, string)>, q: (string, string))
    requires Answers(ScanList(h, places, base, tag, mask), pairs, h, base, tag, mask) && Wanted(h, base, tag, mask, q)
    ensures PlainPair(q)
  {
    ScanIsPlain(h, places, base, tag, mask);
    AnswersContain(ScanList(h, places, base, tag, mask), pairs, h, base, tag, mask, q);
  }

  lemma ConfusedRecord(h: seq<Op>, base: string, tag: string, mask: nat, l: string, t: string)
    requires Confused(h, base, tag, mask, l, t) && !Wanted(h, base, tag, mask, (l, t))
    ensures Extra(h, Place(base, Rest(l, t)), base, tag, mask)
  {
    RestParts(l, t);
    KeyByRest(base, l, t);
  }

  lemma ConfusedDisagrees(h: seq<Op>, links: map<string, seq<Event>>, order: seq<string>, places: seq<Place>,
                          base: string, tag: string, mask: nat, pairs: seq<(string, string)>, l: string, t: string)
    requires HashBases(h) && LinksOk(links, h) && Lists(order, links.Keys) && AllAt(order, places) && Plain(base)
    requires Confused(h, base, tag, mask, l, t) && PlainBases(places)
    ensures !Answers(ScanList(h, places, base, tag, mask), pairs, h, base, tag, mask)
  {
    var rs := ScanList(h, places, base, tag, mask);
    if Answers(rs, pairs, h, base, tag, mask) {
      forall q | Wanted(h, base, tag, mask, q) ensures PlainPair(q) {
        AnsweredIsPlain(h, places, base, tag, mask, pairs, q);
      }
      ConfusedRecord(h, base, tag, mask, l, t);
      RecordedIsPlaced(h, links, order, places, base, l, t);
      ScanLonger(h, places, base, tag, mask);
      WantedListEnumerates(h, links, order, places, base, tag, mask);
      SameSize(pairs, WantedList(h, places, base, tag, mask));
    }
  }

  /**
   * The lookup gives exactly one result for every link and tag of the base whose most recent
   * event meets the mask, with the source of that event, if and only if nothing is confused.
   */
  lemma LookupIsReplayIffClear(fp: Message -> string, db: Db, h: seq<Op>, base: string, tag: string, mask: nat,
                               order: seq<string>)
    requires Represents(fp, db, h) && HashBases(h) && Plain(base) && Lists(order, db.links.Keys)
    ensures KeysSplit(order, db.links)
    ensures (exists pairs :: Answers(ScanLinks(db.links, order, base, tag, mask), pairs, h, base, tag, mask))
            <==> Clear(h, base, tag, mask)
  {
    RecordsSplit(db.links, h, order);
    var places := PlacesOf(h, db.links, order);
    ScanIsList(h, db.links, order, places, base, tag, mask);
    var rs := ScanList(h, places, base, tag, mask);
    assert PlainBases(places) by { assert forall i :: 0 <= i < |places| ==> At(order[i], places[i]); }
    if Clear(h, base, tag, mask) {
      var ps := WantedList(h, places, base, tag, mask);
      ClearAgrees(h, places, base, tag, mask);
      ClearWanted(h, base, tag, mask);
      WantedListEnumerates(h, db.links, order, places, base, tag, mask);
      assert Answers(rs, ps, h, base, tag, mask);
    } else {
      var l, t :| Confused(h, base, tag, mask, l, t);
      forall pairs ensures !Answers(rs, pairs, h, base, tag, mask) {
        ConfusedDisagrees(h, db.links, order, places, base, tag, mask, pairs, l, t);
      }
    }
  }

  lemma ClearWanted(h: seq<Op>, base: string, tag: string, mask: nat)
    requires Clear(h, base, tag, mask)
    ensures forall q :: Wanted(h, base, tag, mask, q) ==> PlainPair(q)
  {
    forall q | Wanted(h, base, tag, mask, q) ensures PlainPair(q) {
      assert !Confused(h, base, tag, mask, q.0, q.1);
    }
  }

  /** Links and tags without ':' are always safe. */
  lemma PlainTextClear(h: seq<Op>, base: string, tag: string, mask: nat)
    requires HashBases(h) && Plain(base)
    requires forall i :: 0 <= i < |h| && PlaceOf(h[i]).Some? ==>
               Plain(PlaceOf(h[i]).value.1) && Plain(PlaceOf(h[i]).value.2)
    ensures Clear(h, base, tag, mask)
  {
    forall l, t ensures !Confused(h, base, tag, mask, l, t) {
      if !PlainPair((l, t)) {
        EventsInRecord(h, base, l, t);
        NoSuchRecord(h, base, l, t);
      }
    }
  }

  lemma {:induction false} NoSuchRecord(h: seq<Op>, b: string, l: string, t: string)
    requires HashBases(h) && Plain(b) && !PlainPair((l, t))
    requires forall i :: 0 <= i < |h| && PlaceOf(h[i]).Some? ==>
               Plain(PlaceOf(h[i]).value.1) && Plain(PlaceOf(h[i]).value.2)
    ensures EventsAt(h, LinkKey(b, l, t)) == []
  {
    if h != [] {
      var op := h[|h| - 1];
      NoSuchRecord(h[..|h| - 1], b, l, t);
      EventsAtNext(h, LinkKey(b, l, t));
      EventKey(op);
      if PlaceOf(op).Some? {
        var (b', l', t') := PlaceOf(op).value;
        if LinkKey(b', l', t') == LinkKey(b, l, t) { PlainPlace(b', l', t', b, l, t); }
      }
    }
  }

  // ---------- events are only ever added ----------

  lemma {:induction false} EventsOnlyGrow(h: seq<Op>, more: seq<Op>, key: string)
    ensures EventsAt(h, key) <= EventsAt(h + more, key)
  {
    if more == [] {
      assert h + more == h;
    } else {
      var n := |more| - 1;
      EventsOnlyGrow(h, more[..n], key);
      assert (h + more)[..|h + more| - 1] == h + more[..n];
    }
  }
}
