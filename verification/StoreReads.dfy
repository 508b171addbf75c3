/**
 * Status masks by their bits, and what is read from a store right after a change (dht.go
 * `_get`, `put`, `del`, `mod`, `link`), said without the history.
 */
module StoreReads {
  import opened Collections
  import opened StoreHistory
  import opened DhtStore
  import opened Dht
  import opened LinkQuery

  const ANY := 255

  /** Every status has its own bit: live, rejected, deleted, modified. */
  lemma MeetsBits(mask: nat, b0: nat, b1: nat, b2: nat, b3: nat, r: nat)
    requires b0 <= 1 && b1 <= 1 && b2 <= 1 && b3 <= 1 && mask == b0 + 2 * b1 + 4 * b2 + 8 * b3 + 16 * r
    ensures Meets(LIVE, mask) <==> b0 == 1
    ensures Meets(REJECTED, mask) <==> b1 == 1
    ensures Meets(DELETED, mask) <==> b2 == 1
    ensures Meets(MODIFIED, mask) <==> b3 == 1
  {
    MeetsDigits(mask);
    Halve(mask, b0, b1 + 2 * b2 + 4 * b3 + 8 * r);
    Halve(mask / 2, b1, b2 + 2 * b3 + 4 * r);
    Halve(mask / 4, b2, b3 + 2 * r);
    Halve(mask / 8, b3, r);
  }

  lemma Halve(n: nat, b: nat, r: nat)
    requires b <= 1 && n == b + 2 * r
    ensures n % 2 == b && n / 2 == r
  {
  }

  lemma MeetsDigits(mask: nat)
    ensures Meets(LIVE, mask) <==> mask % 2 == 1
    ensures Meets(REJECTED, mask) <==> mask / 2 % 2 == 1
    ensures Meets(DELETED, mask) <==> mask / 4 % 2 == 1
    ensures Meets(MODIFIED, mask) <==> mask / 8 % 2 == 1
    ensures mask / 4 == mask / 2 / 2 && mask / 8 == mask / 4 / 2
  {
    assert mask / LIVE == mask;
  }

  lemma StatusBits()
    ensures Meets(LIVE, LIVE) && Meets(REJECTED, REJECTED) && Meets(DELETED, DELETED) && Meets(MODIFIED, MODIFIED)
    ensures !Meets(LIVE, REJECTED + DELETED + MODIFIED) && !Meets(REJECTED, LIVE + DELETED + MODIFIED)
    ensures !Meets(DELETED, LIVE + REJECTED + MODIFIED) && !Meets(MODIFIED, LIVE + REJECTED + DELETED)
    ensures Meets(LIVE, ANY) && Meets(REJECTED, ANY) && Meets(DELETED, ANY) && Meets(MODIFIED, ANY)
  {
    MeetsBits(LIVE, 1, 0, 0, 0, 0);
    MeetsBits(REJECTED, 0, 1, 0, 0, 0);
    MeetsBits(DELETED, 0, 0, 1, 0, 0);
    MeetsBits(MODIFIED, 0, 0, 0, 1, 0);
    MeetsBits(ANY, 1, 1, 1, 1, 15);
  }

  /** Under a mask a key is found, with what was last put, exactly when the bit of its status is set. */
  lemma ReadByBits(fp: Message -> string, db: Db, h: seq<Op>, k: string, b0: nat, b1: nat, b2: nat, b3: nat, r: nat)
    requires Represents(fp, db, h)
    requires b0 <= 1 && b1 <= 1 && b2 <= 1 && b3 <= 1 && b0 + 2 * b1 + 4 * b2 + 8 * b3 + 16 * r > 0
    ensures StatusOf(h, k) != 0 ==> RecordOf(h, k).Some?
    ensures Read(db, k, b0 + 2 * b1 + 4 * b2 + 8 * b3 + 16 * r) ==
      var s := StatusOf(h, k);
      if (s == LIVE && b0 == 1) || (s == REJECTED && b1 == 1) || (s == DELETED && b2 == 1) || (s == MODIFIED && b3 == 1)
      then Found(RecordOf(h, k).value.value) else NotFound
  {
    ReadMeaning(fp, db, h, k, b0 + 2 * b1 + 4 * b2 + 8 * b3 + 16 * r);
    MeetsBits(b0 + 2 * b1 + 4 * b2 + 8 * b3 + 16 * r, b0, b1, b2, b3, r);
    StatusMeaning(h, k);
  }

  /** Whatever was ever put can be read under the mask of all statuses. */
  lemma AnyFindsAll(fp: Message -> string, db: Db, h: seq<Op>, k: string)
    requires Represents(fp, db, h)
    ensures Read(db, k, ANY) == if RecordOf(h, k).Some? then Found(RecordOf(h, k).value.value) else NotFound
  {
    ReadByBits(fp, db, h, k, 1, 1, 1, 1, 15);
    StatusMeaning(h, k);
  }

  /** Links asked for without a mask are the live ones; any other mask is taken as it is. */
  lemma {:induction false} DefaultLinks(links: map<string, seq<Event>>, order: seq<string>, base: string, tag: string)
    requires KeysSplit(order, links)
    ensures ScanLinks(links, order, base, tag, 0) == ScanLinks(links, order, base, tag, LIVE)
  {
    if order != [] { DefaultLinks(links, order[..|order| - 1], base, tag); }
  }

  /** A record is scanned under a mask by the bit of its last event. */
  lemma HitByBits(es: seq<Event>, t: string, l: string, tag: string, b0: nat, b1: nat, b2: nat, b3: nat, r: nat)
    requires b0 <= 1 && b1 <= 1 && b2 <= 1 && b3 <= 1 && b0 + 2 * b1 + 4 * b2 + 8 * b3 + 16 * r > 0
    requires es != [] && es[|es| - 1].status in {LIVE, DELETED} && (tag == "" || tag == t)
    ensures Contribution(es, t, l, tag, b0 + 2 * b1 + 4 * b2 + 8 * b3 + 16 * r) ==
      var e := es[|es| - 1];
      if (e.status == LIVE && b0 == 1) || (e.status == DELETED && b2 == 1)
      then Some(TaggedHash(l, if tag == "" then t else "", e.source)) else None
  {
    MeetsBits(b0 + 2 * b1 + 4 * b2 + 8 * b3 + 16 * r, b0, b1, b2, b3, r);
  }

  // ---------- reads after writes ----------

  /** When a change is accepted, said by what can be read before it. */
  lemma AcceptedWhen(fp: Message -> string, db: Db, h: seq<Op>, op: Op)
    requires Represents(fp, db, h) && Allowed(op)
    ensures Transact(fp, db, op).Some? <==>
      match op
      case Put(_, _, _, _, _, _) => true
      case AddToList(_, _, _) => true
      case Del(_, k) => Read(db, k, ANY).Found?
      case Mod(_, k, _) => Read(db, k, ANY).Found?
      case Link(_, base, l, t, status) =>
        Read(db, base, 0).Found? && (status == DELETED ==> LinkKey(base, l, t) in db.links)
  {
    TransactAgrees(fp, db, h, op);
    match op
    case Del(_, k) => AnyFindsAll(fp, db, h, k); StatusMeaning(h, k);
    case Mod(_, k, _) => AnyFindsAll(fp, db, h, k); StatusMeaning(h, k);
    case Link(_, base, l, t, _) =>
      ReadMeaning(fp, db, h, base, 0);
      StatusMeaning(h, base);
      assert LinkOk(db.links, h, LinkKey(base, l, t));
    case Put(_, _, _, _, _, _) =>
    case AddToList(_, _, _) =>
  }

  /** The key whose entry a change is about. */
  function KeyOf(op: Op): Option<string> {
    if op.Put? || op.Del? || op.Mod? then Some(op.key) else None
  }

  /** After an accepted change its key reads as it says; every other key reads as before. */
  lemma ReadAfter(fp: Message -> string, db: Db, h: seq<Op>, op: Op, k: string, mask: nat)
    requires Represents(fp, db, h) && Allowed(op) && Transact(fp, db, op).Some?
    ensures var d := Transact(fp, db, op).value;
            if KeyOf(op) != Some(k) then
              && Read(d, k, mask) == Read(db, k, mask) && (k in d.typ <==> k in db.typ) && (k in d.src <==> k in db.src)
              && (k in d.typ ==> d.typ[k] == db.typ[k]) && (k in d.src ==> d.src[k] == db.src[k])
            else match op
              case Put(_, typ, _, src, value, status) =>
                && k in d.typ && d.typ[k] == typ && k in d.src && d.src[k] == src && Read(d, k, ANY) == Found(value)
                && Read(d, k, 0) == (if status == LIVE then Found(value) else HashRejected)
              case Del(_, _) => Read(d, k, ANY) == Read(db, k, ANY) && Read(d, k, 0) == HashDeleted
              case Mod(_, _, newkey) => Read(d, k, ANY) == Read(db, k, ANY) && Read(d, k, 0) == HashModified(newkey)
              case _ => true
  {
    var d := Transact(fp, db, op).value;
    StatusBits();
    assert EntryOk(db, h, k);
    StatusMeaning(h, k);
  }

  /** An accepted change with a message puts exactly that message at the end of the log; the DNA is not logged. */
  lemma LoggedAfter(fp: Message -> string, db: Db, h: seq<Op>, op: Op)
    requires Represents(fp, db, h) && Allowed(op) && Transact(fp, db, op).Some?
    ensures var d := Transact(fp, db, op).value;
            if op.Put? && op.sent.None? then d.idx == db.idx && d.log == db.log && d.prints == db.prints
            else
              var m := if op.Put? then op.sent.value else op.msg;
              d.idx == db.idx + 1 && d.log == db.log[d.idx := m] && d.prints == db.prints[fp(m) := d.idx]
  {
    TransactFields(fp, db, op);
  }

  /** The records added to a list are in it; nothing else about any list changes. */
  lemma ListedAfter(fp: Message -> string, db: Db, op: Op, list: string, k: string)
    requires Transact(fp, db, op).Some?
    ensures var d, key := Transact(fp, db, op).value, (list, k);
            if op.AddToList? && op.list == list && k in op.records
            then key in d.lists && d.lists[key] == op.records[k]
            else (key in d.lists <==> key in db.lists) && (key in d.lists ==> d.lists[key] == db.lists[key])
  {
    if op.AddToList? {
      var added := map r | r in op.records :: (op.list, r) := op.records[r];
      assert (list, k) in added <==> op.list == list && k in op.records;
    }
  }

  // ---------- links after writes ----------

  /** A link that was put is in the replay of its base from then on, one that was deleted is not; others stay. */
  lemma LinkAfter(h: seq<Op>, m: Message, b: string, l: string, t: string, status: int, tag: string)
    requires Allowed(Link(m, b, l, t, status)) && (tag == "" || tag == t)
    ensures var h' := h + [Link(m, b, l, t, status)];
            && Events(h', b, l, t) == Events(h, b, l, t) + [Event(status, m.from, m.links)]
            && (Wanted(h', b, tag, 0, (l, t)) <==> status == LIVE)
            && ResultFor(h', b, tag, (l, t)) == TaggedHash(l, if tag == "" then t else "", m.from)
            && forall b', p :: (b', p) != (b, (l, t)) ==>
                 (Wanted(h', b', tag, 0, p) <==> Wanted(h, b', tag, 0, p))
  {
    var op := Link(m, b, l, t, status);
    assert (h + [op])[..|h|] == h;
    StatusBits();
  }

  /** A modified key links to its replacement under the system tag from then on. */
  lemma ModAfter(h: seq<Op>, m: Message, k: string, newkey: string)
    ensures var h' := h + [Mod(m, k, newkey)];
            && Events(h', k, newkey, "__replacedBy") ==
                 Events(h, k, newkey, "__replacedBy") + [Event(LIVE, m.from, newkey)]
            && Wanted(h', k, "__replacedBy", 0, (newkey, "__replacedBy"))
            && ResultFor(h', k, "__replacedBy", (newkey, "__replacedBy")) == TaggedHash(newkey, "", m.from)
            && forall b', p :: (b', p) != (k, (newkey, "__replacedBy")) ==>
                 Events(h', b', p.0, p.1) == Events(h, b', p.0, p.1)
  {
    var op := Mod(m, k, newkey);
    assert (h + [op])[..|h|] == h;
    StatusBits();
  }

  /** The places of the links from `base` among the first `n`. */
  ghost predicate Takes(ix: seq<nat>, base: string, links: seq<LinkSpec>, n: nat) {
    n <= |links| && Increasing(ix) && forall i: nat :: i in ix <==> i < n && links[i].base == base
  }

  lemma TakesNext(before: seq<nat>, base: string, links: seq<LinkSpec>, n: nat)
    requires n < |links| && Takes(before, base, links, n)
    ensures Takes(if links[n].base == base then before + [n] else before, base, links, n + 1)
  {
    assert forall a :: 0 <= a < |before| ==> before[a] in before;
  }

  ghost predicate TakenAt(op: Op, m: Message, base: string, l: LinkSpec) {
    op == Link(m, base, l.link, l.tag, if l.delete then DELETED else LIVE)
  }

  lemma {:induction false} LinksTakenTo(m: Message, base: string, links: seq<LinkSpec>, n: nat)
    returns (ix: seq<nat>)
    requires n <= |links|
    ensures Takes(ix, base, links, n) && |LinkOps(m, base, links[..n])| == |ix|
    ensures forall j :: 0 <= j < |ix| ==>
              ix[j] < |links| && TakenAt(LinkOps(m, base, links[..n])[j], m, base, links[ix[j]])
  {
    if n == 0 {
      ix := [];
    } else {
      var before := LinksTakenTo(m, base, links, n - 1);
      LinkOpsNext(m, base, links, n - 1);
      TakesNext(before, base, links, n - 1);
      ix := if links[n - 1].base == base then before + [n - 1] else before;
    }
  }

  /** A received links entry is taken link by link: those from this base, in order, deleting or adding as each says. */
  lemma LinksTaken(m: Message, base: string, links: seq<LinkSpec>) returns (ix: seq<nat>)
    ensures Takes(ix, base, links, |links|) && |LinkOps(m, base, links)| == |ix|
    ensures forall j :: 0 <= j < |ix| ==>
              ix[j] < |links| && TakenAt(LinkOps(m, base, links)[j], m, base, links[ix[j]])
  {
    ix := LinksTakenTo(m, base, links, |links|);
    assert links[..|links|] == links;
  }
}
