/**
 * Looking up links (dht.go `getLinks`): a scan of all link records that splits their keys,
 * against a replay of every link event there ever was. Links and tags are any text; where a
 * ':' in them makes the two differ is worked out in `LinkReplay`.
 */
module LinkQuery {
  import opened Collections
  import opened StoreHistory
  import opened LinkText
  import opened DhtStore
  import opened Dht

  /** The tag is only filled in when it was not asked for. */
  datatype TaggedHash = TaggedHash(hash: string, tag: string, source: string)

  datatype Answer = NoBase | NoLinks | Links(results: seq<TaggedHash>)

  // ---------- the scan ----------

  function MaskOf(mask: nat): nat {
    if mask == 0 then LIVE else mask
  }

  /** What one record contributes, given what its tag is taken to be. */
  function Contribution(es: seq<Event>, tagPart: string, link: string, tag: string, mask: nat): Option<TaggedHash> {
    if (tag == "" || tag == tagPart) && es != [] && Meets(es[|es| - 1].status, MaskOf(mask))
    then Some(TaggedHash(link, if tag == "" then tagPart else "", es[|es| - 1].source))
    else None
  }

  function Hit(es: seq<Event>, key: string, base: string, tag: string, mask: nat): Option<TaggedHash>
    requires |Split(key)| >= 4
  {
    var x := Split(key);
    if x[1] == base then Contribution(es, x[3], x[2], tag, mask) else None
  }

  predicate KeysSplit(order: seq<string>, links: map<string, seq<Event>>) {
    forall i :: 0 <= i < |order| ==> order[i] in links && |Split(order[i])| >= 4
  }

  function ScanLinks(links: map<string, seq<Event>>, order: seq<string>, base: string, tag: string,
                     mask: nat): seq<TaggedHash>
    requires KeysSplit(order, links)
  {
    if order == [] then []
    else
      var k := order[|order| - 1];
      var r := ScanLinks(links, order[..|order| - 1], base, tag, mask);
      var hit := Hit(links[k], k, base, tag, mask);
      if hit.Some? then r + [hit.value] else r
  }

  lemma {:induction false} RecordHasOp(h: seq<Op>, key: string)
    requires EventsAt(h, key) != []
    ensures exists i :: 0 <= i < |h| && EventOf(h[i]).Some? && EventOf(h[i]).value.0 == key
    ensures |Split(key)| >= 4
  {
    var n := |h| - 1;
    if EventOf(h[n]).Some? && EventOf(h[n]).value.0 == key {
      match h[n] {
        case Mod(_, k, newkey) => SplitKey(k, newkey, REPLACED_BY);
        case Link(_, b, l, t, _) => SplitKey(b, l, t);
      }
    } else {
      RecordHasOp(h[..n], key);
      var i :| 0 <= i < n && EventOf(h[..n][i]).Some? && EventOf(h[..n][i]).value.0 == key;
      assert h[i] == h[..n][i];
    }
  }

  lemma RecordsSplit(links: map<string, seq<Event>>, h: seq<Op>, order: seq<string>)
    requires LinksOk(links, h) && Lists(order, links.Keys)
    ensures KeysSplit(order, links)
  {
    forall i | 0 <= i < |order| ensures order[i] in links && |Split(order[i])| >= 4 {
      assert order[i] in order;
      assert LinkOk(links, h, order[i]);
      RecordHasOp(h, order[i]);
    }
  }

  /** The links of a live or modified base, in the order of the scan. */
  method GetLinks(d: DHT, base: string, tag: string, mask: nat, order: seq<string>) returns (r: Answer)
    requires d.Valid() && Lists(order, d.db.links.Keys)
    ensures KeysSplit(order, d.db.links)
    ensures r == NoBase <==> StatusOf(d.history, base) !in {LIVE, MODIFIED}
    ensures r != NoBase ==>
              var results := ScanLinks(d.db.links, order, base, tag, mask);
              r == if results == [] then NoLinks else Links(results)
  {
    RecordsSplit(d.db.links, d.history, order);
    BaseMeaning(d.fp, d.db, d.history, base);
    var found := Read(d.db, base, LIVE + MODIFIED);
    if !found.Found? { return NoBase; }
    var results := CollectLinks(d.db.links, order, base, tag, mask);
    return if results == [] then NoLinks else Links(results);
  }

  lemma BaseMeaning(fp: Message -> string, db: Db, h: seq<Op>, base: string)
    requires Represents(fp, db, h)
    ensures Read(db, base, LIVE + MODIFIED).Found? <==> StatusOf(h, base) in {LIVE, MODIFIED}
  {
    ReadMeaning(fp, db, h, base, LIVE + MODIFIED);
    StatusMeaning(h, base);
  }

  method CollectLinks(links: map<string, seq<Event>>, order: seq<string>, base: string, tag: string, mask: nat)
    returns (results: seq<TaggedHash>)
    requires KeysSplit(order, links)
    ensures results == ScanLinks(links, order, base, tag, mask)
  {
    var m := if mask == 0 then LIVE else mask;
    results := [];
    for i := 0 to |order|
      invariant KeysSplit(order[..i], links)
      invariant results == ScanLinks(links, order[..i], base, tag, mask)
    {
      assert order[..i + 1][..i] == order[..i];
      var key := order[i];
      var x := Split(key);
      if x[1] == base && (tag == "" || tag == x[3]) {
        var records := links[key];
        if |records| > 0 {
          var entry := records[|records| - 1];
          if Meets(entry.status, m) {
            results := results + [TaggedHash(x[2], if tag == "" then x[3] else "", entry.source)];
          }
        }
      }
    }
    assert order[..|order|] == order;
  }

  // ---------- the replay ----------

  /** The events of one link under one tag, read off the history. */
  function Events(h: seq<Op>, b: string, l: string, t: string): seq<Event> {
    if h == [] then []
    else
      var before := Events(h[..|h| - 1], b, l, t);
      match h[|h| - 1]
      case Mod(m, key, newkey) =>
        if (key, newkey, REPLACED_BY) == (b, l, t) then before + [Event(LIVE, m.from, newkey)] else before
      case Link(m, base, link, tag, status) =>
        if (base, link, tag) == (b, l, t) then before + [Event(status, m.from, m.links)] else before
      case _ => before
  }

  /** The most recent event meets the mask. */
  predicate Current(h: seq<Op>, b: string, l: string, t: string, mask: nat) {
    var es := Events(h, b, l, t);
    es != [] && Meets(es[|es| - 1].status, MaskOf(mask))
  }

  predicate Wanted(h: seq<Op>, b: string, tag: string, mask: nat, p: (string, string)) {
    (tag == "" || tag == p.1) && Current(h, b, p.0, p.1, mask)
  }

  function ResultFor(h: seq<Op>, b: string, tag: string, p: (string, string)): TaggedHash
    requires Events(h, b, p.0, p.1) != []
  {
    var es := Events(h, b, p.0, p.1);
    TaggedHash(p.0, if tag == "" then p.1 else "", es[|es| - 1].source)
  }

  /** `pairs` lists every wanted link and tag once. */
  ghost predicate Enumerates(pairs: seq<(string, string)>, h: seq<Op>, b: string, tag: string, mask: nat) {
    && (forall p :: p in pairs <==> Wanted(h, b, tag, mask, p))
    && (forall i, j :: 0 <= i < j < |pairs| ==> pairs[i] != pairs[j])
  }

  /** One result for every wanted link and tag, and no other. */
  ghost predicate Answers(results: seq<TaggedHash>, pairs: seq<(string, string)>, h: seq<Op>, b: string, tag: string,
                          mask: nat) {
    && Enumerates(pairs, h, b, tag, mask)
    && |results| == |pairs|
    && forall i :: 0 <= i < |pairs| ==> AnswerAt(results[i], pairs[i], h, b, tag)
  }

  ghost predicate AnswerAt(r: TaggedHash, p: (string, string), h: seq<Op>, b: string, tag: string) {
    Events(h, b, p.0, p.1) != [] && r == ResultFor(h, b, tag, p)
  }

  /** All bases are hashes in base 58; links and tags are any text. */
  ghost predicate HashBases(h: seq<Op>) {
    forall i :: 0 <= i < |h| ==>
      match h[i]
      case Mod(_, key, _) => Plain(key)
      case Link(_, base, _, _, _) => Plain(base)
      case _ => true
  }

  /** Where the event of an operation belongs. */
  function PlaceOf(op: Op): Option<(string, string, string)> {
    match op
    case Mod(_, key, newkey) => Some((key, newkey, REPLACED_BY))
    case Link(_, base, link, tag, _) => Some((base, link, tag))
    case _ => None
  }

  lemma EventKey(op: Op)
    ensures EventOf(op).Some? <==> PlaceOf(op).Some?
    ensures PlaceOf(op).Some? ==> var (b, l, t) := PlaceOf(op).value; EventOf(op).value.0 == LinkKey(b, l, t)
  {
  }

  lemma EventsNext(h: seq<Op>, b: string, l: string, t: string)
    requires h != []
    ensures Events(h, b, l, t) ==
      var before, op := Events(h[..|h| - 1], b, l, t), h[|h| - 1];
      if PlaceOf(op) == Some((b, l, t)) then before + [EventOf(op).value.1] else before
  {
  }

  lemma EventsAtNext(h: seq<Op>, key: string)
    requires h != []
    ensures EventsAt(h, key) ==
      var before, op := EventsAt(h[..|h| - 1], key), h[|h| - 1];
      if EventOf(op).Some? && EventOf(op).value.0 == key then before + [EventOf(op).value.1] else before
  {
  }

  /** A plain link and tag have their record for themselves. */
  lemma {:induction false} EventsByKey(h: seq<Op>, b: string, l: string, t: string)
    requires HashBases(h) && Plain(b) && Plain(l) && Plain(t)
    ensures EventsAt(h, LinkKey(b, l, t)) == Events(h, b, l, t)
  {
    if h != [] {
      var n := |h| - 1;
      EventsByKey(h[..n], b, l, t);
      EventsNext(h, b, l, t);
      EventsAtNext(h, LinkKey(b, l, t));
      EventKey(h[n]);
      if PlaceOf(h[n]).Some? {
        var (b', l', t') := PlaceOf(h[n]).value;
        if LinkKey(b', l', t') == LinkKey(b, l, t) { PlainPlace(b, l, t, b', l', t'); }
      }
    }
  }

  lemma PlainPlace(b: string, l: string, t: string, b': string, l': string, t': string)
    requires Plain(b) && Plain(b') && Plain(l) && Plain(t) && LinkKey(b', l', t') == LinkKey(b, l, t)
    ensures (b', l', t') == (b, l, t)
  {
    KeyByRest(b, l, t);
    KeyByRest(b', l', t');
    KeyParts(b, Rest(l, t), b', Rest(l', t'));
    RestParts(l, t);
    RestParts(l', t');
    assert Split(Rest(l', t')) == [l', t'];
  }

  /** The last event of a record is the last event of some link and tag stored there. */
  lemma {:induction false} LastOwner(h: seq<Op>, key: string) returns (b: string, l: string, t: string)
    requires HashBases(h) && EventsAt(h, key) != []
    ensures Plain(b) && key == LinkKey(b, l, t)
    ensures var es, all := Events(h, b, l, t), EventsAt(h, key);
            es != [] && es[|es| - 1] == all[|all| - 1]
  {
    var n := |h| - 1;
    EventsAtNext(h, key);
    EventKey(h[n]);
    if EventOf(h[n]).Some? && EventOf(h[n]).value.0 == key {
      var p := PlaceOf(h[n]).value;
      b, l, t := p.0, p.1, p.2;
    } else {
      b, l, t := LastOwner(h[..n], key);
    }
    EventsNext(h, b, l, t);
  }

  lemma {:induction false} EventsInRecord(h: seq<Op>, b: string, l: string, t: string)
    ensures Events(h, b, l, t) != [] ==> EventsAt(h, LinkKey(b, l, t)) != []
  {
    if h != [] {
      EventsInRecord(h[..|h| - 1], b, l, t);
      EventsNext(h, b, l, t);
      EventsAtNext(h, LinkKey(b, l, t));
      EventKey(h[|h| - 1]);
    }
  }
}
