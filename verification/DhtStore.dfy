/**
 * The store of a node (dht.go, gossip.go): key/value records changed in transactions. The
 * store refines the history of accepted operations: it accepts the same operations and
 * answers every read as the history does.
 */
module DhtStore {
  import opened Collections
  import opened StoreHistory

  /** Results of the store; the last two are the panics in `_get`. */
  datatype Outcome =
    | Found(value: string)
    | NotFound
    | HashDeleted
    | HashRejected
    | HashModified(newkey: string)
    | MissingStatus
    | MissingReplacedBy
    | UnknownStatus

  datatype Db = Db(
    entry: map<string, string>,
    typ: map<string, string>,
    src: map<string, string>,
    status: map<string, int>,
    replacedBy: map<string, string>,
    links: map<string, seq<Event>>,
    lists: map<(string, string), string>,
    idx: nat,
    log: map<nat, Message>,
    prints: map<string, nat>)

  const EMPTY_DB := Db(map[], map[], map[], map[], map[], map[], map[], 0, map[], map[])

  // ---------- what the records say about the history ----------

  ghost predicate RecordOk(db: Db, h: seq<Op>, k: string) {
    var r := RecordOf(h, k);
    && (k in db.entry <==> r.Some?) && (k in db.typ <==> r.Some?) && (k in db.src <==> r.Some?)
    && (r.Some? ==> db.entry[k] == r.value.value && db.typ[k] == r.value.typ && db.src[k] == r.value.src)
  }

  ghost predicate StatusOk(db: Db, h: seq<Op>, k: string) {
    (k in db.status <==> StatusOf(h, k) != 0) && (k in db.status ==> db.status[k] == StatusOf(h, k))
  }

  ghost predicate ReplacedOk(db: Db, h: seq<Op>, k: string) {
    && (k in db.replacedBy <==> ReplacementOf(h, k).Some?)
    && (k in db.replacedBy ==> db.replacedBy[k] == ReplacementOf(h, k).value)
  }

  ghost predicate EntryOk(db: Db, h: seq<Op>, k: string) {
    RecordOk(db, h, k) && StatusOk(db, h, k) && ReplacedOk(db, h, k)
  }

  ghost predicate EntriesOk(db: Db, h: seq<Op>) {
    forall k :: EntryOk(db, h, k)
  }

  ghost predicate LinkOk(links: map<string, seq<Event>>, h: seq<Op>, key: string) {
    && (key in links <==> EventsAt(h, key) != [])
    && (key in links ==> links[key] == EventsAt(h, key))
  }

  ghost predicate LinksOk(links: map<string, seq<Event>>, h: seq<Op>) {
    forall key :: LinkOk(links, h, key)
  }

  /** The last position with a fingerprint, counted from 1; -1 if there is none. */
  function LastPrint(fp: Message -> string, ms: seq<Message>, f: string): int {
    if ms == [] then -1 else if fp(ms[|ms| - 1]) == f then |ms| else LastPrint(fp, ms[..|ms| - 1], f)
  }

  ghost predicate LogAt(log: map<nat, Message>, ms: seq<Message>, i: nat) {
    (i in log <==> 1 <= i <= |ms|) && (i in log ==> log[i] == ms[i - 1])
  }

  /** The log holds the messages under 1, 2, ... without a gap. */
  ghost predicate LogIs(log: map<nat, Message>, ms: seq<Message>) {
    forall i :: LogAt(log, ms, i)
  }

  /** Besides the log, the newest index of each fingerprint is kept. */
  ghost predicate LogOk(fp: Message -> string, idx: nat, log: map<nat, Message>, prints: map<string, nat>,
                        ms: seq<Message>) {
    && idx == |ms|
    && LogIs(log, ms)
    && (forall f :: f in prints <==> LastPrint(fp, ms, f) != -1)
    && (forall f :: f in prints ==> prints[f] == LastPrint(fp, ms, f))
  }

  ghost predicate Represents(fp: Message -> string, db: Db, h: seq<Op>) {
    && Lawful(h)
    && EntriesOk(db, h)
    && LinksOk(db.links, h)
    && LogOk(fp, db.idx, db.log, db.prints, Messages(h))
  }

  // ---------- steps inside a transaction ----------

  function IncIdx(fp: Message -> string, db: Db, m: Option<Message>): Db {
    if m.None? then db
    else
      var i := db.idx + 1;
      db.(idx := i, log := db.log[i := m.value], prints := db.prints[fp(m.value) := i])
  }

  function AddEvent(links: map<string, seq<Event>>, key: string, e: Event): map<string, seq<Event>> {
    links[key := (if key in links then links[key] else []) + [e]]
  }

  function ListsAfter(lists: map<(string, string), string>, list: string,
                      records: map<string, string>): map<(string, string), string> {
    lists + map r | r in records :: (list, r) := records[r]
  }

  lemma LogGrows(fp: Message -> string, idx: nat, log: map<nat, Message>, prints: map<string, nat>, ms: seq<Message>,
                 m: Message)
    requires LogOk(fp, idx, log, prints, ms)
    ensures LogOk(fp, idx + 1, log[idx + 1 := m], prints[fp(m) := idx + 1], ms + [m])
  {
    assert (ms + [m])[..|ms|] == ms;
    var log', ms' := log[idx + 1 := m], ms + [m];
    forall i: nat ensures LogAt(log', ms', i) {
      assert LogAt(log, ms, i);
    }
  }

  lemma MessagesAppend(h: seq<Op>, op: Op)
    ensures Messages(h + [op]) == Messages(h) + (if MessageOf(op).Some? then [MessageOf(op).value] else [])
  {
    assert (h + [op])[..|h|] == h;
  }

  function LinksAfter(links: map<string, seq<Event>>, op: Op): map<string, seq<Event>> {
    match EventOf(op)
    case None => links
    case Some((key, e)) => AddEvent(links, key, e)
  }

  lemma LinkGrows(links: map<string, seq<Event>>, h: seq<Op>, op: Op, key: string)
    requires LinkOk(links, h, key)
    ensures LinkOk(LinksAfter(links, op), h + [op], key)
  {
    assert (h + [op])[..|h|] == h;
  }

  lemma LinksGrow(links: map<string, seq<Event>>, h: seq<Op>, op: Op)
    requires LinksOk(links, h)
    ensures LinksOk(LinksAfter(links, op), h + [op])
  {
    forall key ensures LinkOk(LinksAfter(links, op), h + [op], key) {
      LinkGrows(links, h, op, key);
    }
  }

  // ---------- transactions ----------

  /** `_get` */
  function Read(db: Db, k: string, mask: nat): Outcome {
    if k !in db.entry then NotFound
    else if k !in db.status then MissingStatus
    else if mask == 0 then
      if db.status[k] == DELETED then HashDeleted
      else if db.status[k] == MODIFIED then
        if k in db.replacedBy then HashModified(db.replacedBy[k]) else MissingReplacedBy
      else if db.status[k] == REJECTED then HashRejected
      else if db.status[k] == LIVE then Found(db.entry[k])
      else UnknownStatus
    else if Meets(db.status[k], mask) then Found(db.entry[k]) else NotFound
  }

  /** The status is one bit; is it in the mask? */
  predicate Meets(status: int, mask: nat) {
    status > 0 && mask / status % 2 == 1
  }

  /** `_setStatus` */
  function SetStatus(fp: Message -> string, db: Db, m: Message, k: string, status: int): Option<Db> {
    if k !in db.entry then None
    else
      var d := IncIdx(fp, db, Some(m));
      Some(d.(status := d.status[k := status]))
  }

  /** `_link`: a deletion needs an existing record. */
  function LinkRecord(db: Db, base: string, link: string, tag: string, from: string, status: int,
                      linksEntry: string): Option<Db> {
    var key := LinkKey(base, link, tag);
    if key !in db.links && status == DELETED then None
    else Some(db.(links := AddEvent(db.links, key, Event(status, from, linksEntry))))
  }

  /** What an operation does to the records of its key. */
  predicate EntryChange(db: Db, op: Op, d: Db) {
    && (if op.Put?
        then d.entry == db.entry[op.key := op.value] && d.typ == db.typ[op.key := op.typ]
             && d.src == db.src[op.key := op.src]
        else d.entry == db.entry && d.typ == db.typ && d.src == db.src)
    && d.status == (match op
                    case Put(_, _, k, _, _, status) => db.status[k := status]
                    case Del(_, k) => db.status[k := DELETED]
                    case Mod(_, k, _) => db.status[k := MODIFIED]
                    case _ => db.status)
    && d.replacedBy == (if op.Mod? then db.replacedBy[op.key := op.newkey] else db.replacedBy)
  }

  /** One transaction; none if it was rolled back. */
  function Transact(fp: Message -> string, db: Db, op: Op): (r: Option<Db>)
    ensures r.Some? ==> EntryChange(db, op, r.value)
  {
    match op
    case Put(m, typ, k, src, value, status) =>
      var d := IncIdx(fp, db, m);
      Some(d.(entry := d.entry[k := value], typ := d.typ[k := typ], src := d.src[k := src],
              status := d.status[k := status]))
    case Del(m, k) => SetStatus(fp, db, m, k, DELETED)
    case Mod(m, k, newkey) =>
      (match SetStatus(fp, db, m, k, MODIFIED)
       case None => None
       case Some(d) =>
         match LinkRecord(d, k, newkey, REPLACED_BY, m.from, LIVE, newkey)
         case None => None
         case Some(d') => Some(d'.(replacedBy := d'.replacedBy[k := newkey])))
    case Link(m, base, link, tag, status) =>
      if !Read(db, base, LIVE).Found? then None
      else (match LinkRecord(db, base, link, tag, m.from, status, m.links)
            case None => None
            case Some(d) => Some(IncIdx(fp, d, Some(m))))
    case AddToList(m, list, records) =>
      var d := IncIdx(fp, db, Some(m));
      Some(d.(lists := ListsAfter(d.lists, list, records)))
  }

  function RunStore(fp: Message -> string, ops: seq<Op>): Db {
    if ops == [] then EMPTY_DB
    else
      var db := RunStore(fp, ops[..|ops| - 1]);
      var r := Transact(fp, db, ops[|ops| - 1]);
      if r.Some? then r.value else db
  }

  // ---------- the store refines the history ----------

  lemma RecordStep(db: Db, h: seq<Op>, op: Op, db': Db, k: string)
    requires RecordOk(db, h, k) && EntryChange(db, op, db')
    ensures RecordOk(db', h + [op], k)
  {
    assert (h + [op])[..|h|] == h;
  }

  lemma StatusStep(db: Db, h: seq<Op>, op: Op, db': Db, k: string)
    requires StatusOk(db, h, k) && EntryChange(db, op, db') && Allowed(op)
    ensures StatusOk(db', h + [op], k)
  {
    assert (h + [op])[..|h|] == h;
  }

  lemma ReplacedStep(db: Db, h: seq<Op>, op: Op, db': Db, k: string)
    requires ReplacedOk(db, h, k) && EntryChange(db, op, db')
    ensures ReplacedOk(db', h + [op], k)
  {
    assert (h + [op])[..|h|] == h;
  }

  lemma LogStep(fp: Message -> string, db: Db, h: seq<Op>, op: Op)
    requires LogOk(fp, db.idx, db.log, db.prints, Messages(h))
    ensures var d := IncIdx(fp, db, MessageOf(op));
            LogOk(fp, d.idx, d.log, d.prints, Messages(h + [op]))
  {
    MessagesAppend(h, op);
    if MessageOf(op).Some? {
      LogGrows(fp, db.idx, db.log, db.prints, Messages(h), MessageOf(op).value);
    } else {
      assert Messages(h) + [] == Messages(h);
    }
  }

  lemma ReadStatus(db: Db, h: seq<Op>, k: string)
    requires Lawful(h) && EntryOk(db, h, k)
    ensures k in db.entry <==> StatusOf(h, k) != 0
    ensures Read(db, k, LIVE).Found? <==> StatusOf(h, k) == LIVE
  {
    StatusMeaning(h, k);
  }

  /** The store accepts the operation exactly when the history does. */
  lemma TransactAgrees(fp: Message -> string, db: Db, h: seq<Op>, op: Op)
    requires Represents(fp, db, h) && Allowed(op)
    ensures Transact(fp, db, op).Some? <==> Succeeds(h, op)
  {
    match op
    case Del(_, k) => assert EntryOk(db, h, k); ReadStatus(db, h, k);
    case Mod(_, k, _) => assert EntryOk(db, h, k); ReadStatus(db, h, k);
    case Link(_, base, link, tag, _) =>
      assert EntryOk(db, h, base);
      ReadStatus(db, h, base);
      assert LinkOk(db.links, h, LinkKey(base, link, tag));
    case Put(_, _, _, _, _, _) =>
    case AddToList(_, _, _) =>
  }

  lemma TransactFields(fp: Message -> string, db: Db, op: Op)
    requires Transact(fp, db, op).Some?
    ensures var d, i := Transact(fp, db, op).value, IncIdx(fp, db, MessageOf(op));
            && d.idx == i.idx && d.log == i.log && d.prints == i.prints
            && d.links == LinksAfter(db.links, op)
  {
  }

  lemma TransactEntries(fp: Message -> string, db: Db, h: seq<Op>, op: Op)
    requires EntriesOk(db, h) && Allowed(op) && Transact(fp, db, op).Some?
    ensures EntriesOk(Transact(fp, db, op).value, h + [op])
  {
    var d := Transact(fp, db, op).value;
    forall k ensures EntryOk(d, h + [op], k) {
      assert EntryOk(db, h, k);
      RecordStep(db, h, op, d, k);
      StatusStep(db, h, op, d, k);
      ReplacedStep(db, h, op, d, k);
    }
  }

  lemma Assemble(fp: Message -> string, db: Db, h: seq<Op>, op: Op, d: Db)
    requires Represents(fp, db, h) && Allowed(op) && Succeeds(h, op) && EntriesOk(d, h + [op])
    requires var i := IncIdx(fp, db, MessageOf(op)); d.idx == i.idx && d.log == i.log && d.prints == i.prints
    requires d.links == LinksAfter(db.links, op)
    ensures Represents(fp, d, h + [op])
  {
    LawfulGrows(h, op);
    LogStep(fp, db, h, op);
    LinksGrow(db.links, h, op);
  }

  lemma TransactRefines(fp: Message -> string, db: Db, h: seq<Op>, op: Op)
    requires Represents(fp, db, h) && Allowed(op)
    ensures Transact(fp, db, op).Some? <==> Succeeds(h, op)
    ensures Transact(fp, db, op).Some? ==> Represents(fp, Transact(fp, db, op).value, h + [op])
  {
    TransactAgrees(fp, db, h, op);
    if Succeeds(h, op) {
      TransactFields(fp, db, op);
      TransactEntries(fp, db, h, op);
      Assemble(fp, db, h, op, Transact(fp, db, op).value);
    }
  }

  /** After any sequence of operations the store represents the accepted ones. */
  lemma {:induction false} StoreRefinesHistory(fp: Message -> string, ops: seq<Op>)
    requires forall i :: 0 <= i < |ops| ==> Allowed(ops[i])
    ensures Represents(fp, RunStore(fp, ops), Accepted(ops))
  {
    if ops != [] {
      var n := |ops| - 1;
      StoreRefinesHistory(fp, ops[..n]);
      TransactRefines(fp, RunStore(fp, ops[..n]), Accepted(ops[..n]), ops[n]);
    }
  }

  lemma {:induction false} LawfulAccepted(h: seq<Op>)
    requires Lawful(h)
    ensures Accepted(h) == h
  {
    if h != [] {
      var n := |h| - 1;
      assert Lawful(h[..n]) by {
        forall i | 0 <= i < n ensures Allowed(h[..n][i]) && Succeeds(h[..n][..i], h[..n][i]) {
          assert h[..n][..i] == h[..i];
        }
      }
      LawfulAccepted(h[..n]);
      assert h == h[..n] + [h[n]];
    }
  }

  /** Every lawful history is that of a store that can be reached. */
  lemma LawfulIsReachable(fp: Message -> string, h: seq<Op>)
    requires Lawful(h)
    ensures Represents(fp, RunStore(fp, h), h)
  {
    StoreRefinesHistory(fp, h);
    LawfulAccepted(h);
  }

  // ---------- what reads give ----------

  /**
   * A read gives what the history says; neither panic can happen, and a modified key leads to its
   * latest replacement.
   */
  lemma ReadMeaning(fp: Message -> string, db: Db, h: seq<Op>, k: string, mask: nat)
    requires Represents(fp, db, h)
    ensures StatusOf(h, k) != 0 ==> RecordOf(h, k).Some? && k in db.typ && k in db.src && k in db.status
    ensures StatusOf(h, k) == MODIFIED ==> ReplacementOf(h, k).Some?
    ensures Read(db, k, mask) ==
      var status := StatusOf(h, k);
      if status == 0 then NotFound
      else if mask != 0 then if Meets(status, mask) then Found(RecordOf(h, k).value.value) else NotFound
      else if status == DELETED then HashDeleted
      else if status == REJECTED then HashRejected
      else if status == MODIFIED then HashModified(ReplacementOf(h, k).value)
      else Found(RecordOf(h, k).value.value)
  {
    assert EntryOk(db, h, k);
    StatusMeaning(h, k);
  }
}
