/**
 * What the store of a node is about (dht.go, gossip.go): the list of changes it accepted,
 * in order. Statuses, replacements, link events and the change log are read off that list;
 * the store itself only keeps indexes of it.
 */
module StoreHistory {
  import opened Collections

  const LIVE := 1
  const REJECTED := 2
  const DELETED := 4
  const MODIFIED := 8

  const REPLACED_BY := "__replacedBy"

  /** `links` is the hash of the linking entry in the body of a link request. */
  datatype Message = Message(from: string, links: string, body: string)

  datatype Event = Event(status: int, source: string, linksEntry: string)

  datatype Record = Record(value: string, typ: string, src: string)

  /** The DNA is put without a message, so it is not gossiped. */
  datatype Op =
    | Put(sent: Option<Message>, typ: string, key: string, src: string, value: string, status: int)
    | Del(msg: Message, key: string)
    | Mod(msg: Message, key: string, newkey: string)
    | Link(msg: Message, base: string, link: string, tag: string, status: int)
    | AddToList(msg: Message, list: string, records: map<string, string>)

  /** What the callers of `put` and `link` ask for. */
  predicate Allowed(op: Op) {
    match op
    case Put(_, _, _, _, _, status) => status == LIVE || status == REJECTED
    case Link(_, _, _, _, status) => status == LIVE || status == DELETED
    case _ => true
  }

  function LinkKey(base: string, link: string, tag: string): string {
    "link:" + base + ":" + link + ":" + tag
  }

  // ---------- reading the history ----------

  /** The status of a key, 0 if it was never put. */
  function StatusOf(h: seq<Op>, k: string): int {
    if h == [] then 0
    else match h[|h| - 1]
      case Put(_, _, key, _, _, status) => if key == k then status else StatusOf(h[..|h| - 1], k)
      case Del(_, key) => if key == k then DELETED else StatusOf(h[..|h| - 1], k)
      case Mod(_, key, _) => if key == k then MODIFIED else StatusOf(h[..|h| - 1], k)
      case _ => StatusOf(h[..|h| - 1], k)
  }

  /** What was last put under a key. */
  function RecordOf(h: seq<Op>, k: string): Option<Record> {
    if h == [] then None
    else match h[|h| - 1]
      case Put(_, typ, key, src, value, _) =>
        if key == k then Some(Record(value, typ, src)) else RecordOf(h[..|h| - 1], k)
      case _ => RecordOf(h[..|h| - 1], k)
  }

  /** What the key was last modified to. */
  function ReplacementOf(h: seq<Op>, k: string): Option<string> {
    if h == [] then None
    else match h[|h| - 1]
      case Mod(_, key, newkey) => if key == k then Some(newkey) else ReplacementOf(h[..|h| - 1], k)
      case _ => ReplacementOf(h[..|h| - 1], k)
  }

  /** The link event an operation makes, and the record it goes to. */
  function EventOf(op: Op): Option<(string, Event)> {
    match op
    case Mod(m, key, newkey) => Some((LinkKey(key, newkey, REPLACED_BY), Event(LIVE, m.from, newkey)))
    case Link(m, base, link, tag, status) => Some((LinkKey(base, link, tag), Event(status, m.from, m.links)))
    case _ => None
  }

  /** All the events of a record, oldest first. */
  function EventsAt(h: seq<Op>, key: string): seq<Event> {
    if h == [] then []
    else match EventOf(h[|h| - 1])
      case Some((k, e)) => if k == key then EventsAt(h[..|h| - 1], key) + [e] else EventsAt(h[..|h| - 1], key)
      case None => EventsAt(h[..|h| - 1], key)
  }

  function MessageOf(op: Op): Option<Message> {
    if op.Put? then op.sent else Some(op.msg)
  }

  /** The messages behind the changes: what there is to gossip. */
  function Messages(h: seq<Op>): seq<Message> {
    if h == [] then []
    else match MessageOf(h[|h| - 1])
      case Some(m) => Messages(h[..|h| - 1]) + [m]
      case None => Messages(h[..|h| - 1])
  }

  // ---------- which operations are accepted ----------

  predicate Succeeds(h: seq<Op>, op: Op) {
    match op
    case Del(_, key) => StatusOf(h, key) != 0
    case Mod(_, key, _) => StatusOf(h, key) != 0
    case Link(_, base, link, tag, status) =>
      StatusOf(h, base) == LIVE && (status == DELETED ==> EventsAt(h, LinkKey(base, link, tag)) != [])
    case _ => true
  }

  /** The accepted ones among a sequence of operations. */
  function Accepted(ops: seq<Op>): seq<Op> {
    if ops == [] then []
    else
      var h := Accepted(ops[..|ops| - 1]);
      if Succeeds(h, ops[|ops| - 1]) then h + [ops[|ops| - 1]] else h
  }

  /** Every operation was accepted in its turn. */
  ghost predicate Lawful(h: seq<Op>) {
    forall i :: 0 <= i < |h| ==> Allowed(h[i]) && Succeeds(h[..i], h[i])
  }

  lemma LawfulGrows(h: seq<Op>, op: Op)
    requires Lawful(h) && Allowed(op) && Succeeds(h, op)
    ensures Lawful(h + [op])
  {
    forall i | 0 <= i < |h + [op]|
      ensures Allowed((h + [op])[i]) && Succeeds((h + [op])[..i], (h + [op])[i])
    {
      if i < |h| { assert (h + [op])[..i] == h[..i]; } else { assert (h + [op])[..i] == h; }
    }
  }

  lemma {:induction false} AcceptedLawful(ops: seq<Op>)
    requires forall i :: 0 <= i < |ops| ==> Allowed(ops[i])
    ensures Lawful(Accepted(ops))
  {
    if ops != [] {
      var n := |ops| - 1;
      AcceptedLawful(ops[..n]);
      if Succeeds(Accepted(ops[..n]), ops[n]) { LawfulGrows(Accepted(ops[..n]), ops[n]); }
    }
  }

  /** A key with a status was put, and a modified one has a replacement. */
  lemma {:induction false} StatusMeaning(h: seq<Op>, k: string)
    requires Lawful(h)
    ensures StatusOf(h, k) in {0, LIVE, REJECTED, DELETED, MODIFIED}
    ensures StatusOf(h, k) != 0 <==> RecordOf(h, k).Some?
    ensures StatusOf(h, k) == MODIFIED ==> ReplacementOf(h, k).Some?
  {
    if h != [] {
      var n := |h| - 1;
      assert Lawful(h[..n]) by {
        forall i | 0 <= i < n ensures Allowed(h[..n][i]) && Succeeds(h[..n][..i], h[..n][i]) {
          assert h[..n][..i] == h[..i];
        }
      }
      StatusMeaning(h[..n], k);
      assert Allowed(h[n]) && Succeeds(h[..n], h[n]);
    }
  }
}
