/**
 * The DHT object (dht.go, gossip.go): every change is a transaction on the database,
 * taken back when one of its steps fails; reads look at the database only.
 */
module Dht {
  import opened Collections
  import opened StoreHistory
  import opened DhtStore

  /** A numbered change as it is gossiped. */
  datatype LogPut = LogPut(idx: int, msg: Message)

  /** One link of a links entry. */
  datatype LinkSpec = LinkSpec(base: string, link: string, tag: string, delete: bool)

  function LinkOp(m: Message, l: LinkSpec): Op {
    Op.Link(m, l.base, l.link, l.tag, if l.delete then DELETED else LIVE)
  }

  function LinkOps(m: Message, base: string, links: seq<LinkSpec>): seq<Op> {
    if links == [] then []
    else
      var l := links[|links| - 1];
      var ops := LinkOps(m, base, links[..|links| - 1]);
      if l.base == base then ops + [LinkOp(m, l)] else ops
  }

  lemma LinkOpsNext(m: Message, base: string, links: seq<LinkSpec>, i: nat)
    requires i < |links|
    ensures LinkOps(m, base, links[..i + 1]) ==
              var ops := LinkOps(m, base, links[..i]);
              if links[i].base == base then ops + [LinkOp(m, links[i])] else ops
  {
    assert links[..i + 1][..i] == links[..i];
  }

  class DHT {
    const fp: Message -> string
    var db: Db
    ghost var history: seq<Op>

    constructor (fp: Message -> string)
      ensures this.fp == fp && Valid() && history == []
    {
      this.fp := fp;
      db := EMPTY_DB;
      history := [];
    }

    ghost predicate Valid()
      reads this
    {
      Represents(fp, db, history)
    }

    /** What every change does: it is accepted as the history demands, or leaves no trace. */
    twostate predicate Changed(op: Op, ok: bool)
      reads this
    {
      && Valid()
      && (ok <==> Succeeds(old(history), op))
      && history == (if ok then old(history) + [op] else old(history))
      && (!ok ==> db == old(db))
    }

    /** Ends a transaction. */
    method Commit(tx: Db, ghost op: Op)
      requires Valid() && Allowed(op) && Transact(fp, db, op) == Some(tx)
      modifies this
      ensures Changed(op, true)
    {
      TransactRefines(fp, db, history, op);
      db := tx;
      history := history + [op];
    }

    method Put(m: Option<Message>, typ: string, key: string, src: string, value: string, status: int)
      requires Valid() && (status == LIVE || status == REJECTED)
      modifies this
      ensures Changed(Op.Put(m, typ, key, src, value, status), true)
    {
      var tx := IncIdx(fp, db, m);
      tx := tx.(entry := tx.entry[key := value]);
      tx := tx.(typ := tx.typ[key := typ]);
      tx := tx.(src := tx.src[key := src]);
      tx := tx.(status := tx.status[key := status]);
      Commit(tx, Op.Put(m, typ, key, src, value, status));
    }

    method Del(m: Message, key: string) returns (ok: bool)
      requires Valid()
      modifies this
      ensures Changed(Op.Del(m, key), ok)
    {
      ghost var op := Op.Del(m, key);
      TransactRefines(fp, db, history, op);
      if key !in db.entry { return false; }
      var tx := IncIdx(fp, db, Some(m));
      tx := tx.(status := tx.status[key := DELETED]);
      Commit(tx, op);
      return true;
    }

    method Mod(m: Message, key: string, newkey: string) returns (ok: bool)
      requires Valid()
      modifies this
      ensures Changed(Op.Mod(m, key, newkey), ok)
    {
      ghost var op := Op.Mod(m, key, newkey);
      TransactRefines(fp, db, history, op);
      if key !in db.entry { return false; }
      var tx := IncIdx(fp, db, Some(m));
      tx := tx.(status := tx.status[key := MODIFIED]);
      var linked := LinkRecord(tx, key, newkey, REPLACED_BY, m.from, LIVE, newkey);
      if linked.None? { return false; }
      tx := linked.value;
      tx := tx.(replacedBy := tx.replacedBy[key := newkey]);
      Commit(tx, op);
      return true;
    }

    /** Only a live base takes links, and only an existing link can be deleted. */
    method Link(m: Message, base: string, link: string, tag: string, status: int) returns (ok: bool)
      requires Valid() && (status == LIVE || status == DELETED)
      modifies this
      ensures Changed(Op.Link(m, base, link, tag, status), ok)
    {
      ghost var op := Op.Link(m, base, link, tag, status);
      TransactRefines(fp, db, history, op);
      var found := Read(db, base, LIVE);
      if !found.Found? { return false; }
      var linked := LinkRecord(db, base, link, tag, m.from, status, m.links);
      if linked.None? { return false; }
      Commit(IncIdx(fp, linked.value, Some(m)), op);
      return true;
    }

    method AddToList(m: Message, list: string, records: map<string, string>)
      requires Valid()
      modifies this
      ensures Changed(Op.AddToList(m, list, records), true)
    {
      var tx := IncIdx(fp, db, Some(m));
      tx := tx.(lists := ListsAfter(tx.lists, list, records));
      Commit(tx, Op.AddToList(m, list, records));
    }

    /** The newest index of a message with the fingerprint, or -1. */
    method GetFingerprint(f: string) returns (index: int)
      requires Valid()
      ensures index == -1 || 1 <= index <= |Messages(history)|
      ensures index == -1 <==> forall i :: 0 <= i < |Messages(history)| ==> fp(Messages(history)[i]) != f
      ensures index != -1 ==> fp(Messages(history)[index - 1]) == f
      ensures index != -1 ==> forall i :: index <= i < |Messages(history)| ==> fp(Messages(history)[i]) != f
    {
      LastPrintMeaning(fp, Messages(history), f);
      if f !in db.prints { return -1; }
      return db.prints[f];
    }

    method HaveFingerprint(f: string) returns (have: bool)
      requires Valid()
      ensures have <==> HasPrint(fp, Messages(history), f)
    {
      var index := GetFingerprint(f);
      return index >= 0;
    }

    /** Carries out a change asked for by a message. */
    method Perform(op: Op) returns (ok: bool)
      requires Valid() && Allowed(op)
      modifies this
      ensures Changed(op, ok)
    {
      ok := true;
      match op {
        case Put(m, typ, key, src, value, status) => Put(m, typ, key, src, value, status);
        case Del(m, key) => ok := Del(m, key);
        case Mod(m, key, newkey) => ok := Mod(m, key, newkey);
        case Link(m, base, link, tag, status) => ok := Link(m, base, link, tag, status);
        case AddToList(m, list, records) => AddToList(m, list, records);
      }
    }

    /**
     * A gossiped message is acted on unless a message with its fingerprint is in the log. The
     * changes it leads to, after validation, are given.
     */
    method GossipPut(m: Message, changes: seq<Op>)
      requires Valid() && forall i :: 0 <= i < |changes| ==> Allowed(changes[i]) && MessageOf(changes[i]) == Some(m)
      modifies this
      ensures Valid()
      ensures Logged(fp, old(history), m) ==> history == old(history) && db == old(db)
      ensures !Logged(fp, old(history), m) ==> history == Try(old(history), changes)
      ensures history != old(history) ==> Logged(fp, history, m)
    {
      var have := HaveFingerprint(fp(m));
      if have { return; }
      for i := 0 to |changes|
        invariant Valid() && history == Try(old(history), changes[..i])
      {
        TryAppend(old(history), changes[..i], changes[i]);
        assert changes[..i + 1] == changes[..i] + [changes[i]];
        var _ := Perform(changes[i]);
      }
      assert changes[..|changes|] == changes;
      TriedIsLogged(fp, old(history), changes, m);
    }

    /**
     * The changes a received links entry makes: one for each of its links from this base, a
     * failure not stopping the later ones. The last outcome is returned.
     */
    method ReceiveLinks(m: Message, base: string, links: seq<LinkSpec>) returns (ok: bool)
      requires Valid()
      modifies this
      ensures Valid() && history == Try(old(history), LinkOps(m, base, links))
      ensures ok <==> LastSucceeds(old(history), LinkOps(m, base, links))
    {
      ok := true;
      for i := 0 to |links|
        invariant Valid() && history == Try(old(history), LinkOps(m, base, links[..i]))
        invariant ok <==> LastSucceeds(old(history), LinkOps(m, base, links[..i]))
      {
        var l := links[i];
        LinkOpsNext(m, base, links, i);
        if base == l.base {
          ghost var op := LinkOp(m, l);
          TryAppend(old(history), LinkOps(m, base, links[..i]), op);
          LastAppend(old(history), LinkOps(m, base, links[..i]), op);
          if l.delete {
            ok := Link(m, base, l.link, l.tag, DELETED);
          } else {
            ok := Link(m, base, l.link, l.tag, LIVE);
          }
        }
      }
      assert links[..|links|] == links;
    }

    /** The log from `since` on. The scan may visit the records in any order. */
    method GetPuts(since: int, order: seq<nat>) returns (puts: seq<LogPut>)
      requires Valid() && Lists(order, db.log.Keys)
      ensures puts == LogSince(Messages(history), since)
    {
      puts := [];
      for n := 0 to |order|
        invariant Gathered(puts, order[..n], since, db.log)
      {
        var idx := order[n];
        GatherNext(puts, order, n, since, db.log);
        if idx >= since { puts := puts + [LogPut(idx, db.log[idx])]; }
      }
      assert order[..|order|] == order;
      SortedLog(db.log, Messages(history), puts, order, since);
      puts := SortByIdx(puts);
    }
  }

  /** The history after some operations were tried one after the other. */
  function Try(h: seq<Op>, ops: seq<Op>): seq<Op>
    decreases |ops|
  {
    if ops == [] then h else Try(if Succeeds(h, ops[0]) then h + [ops[0]] else h, ops[1..])
  }

  lemma {:induction false} TryAppend(h: seq<Op>, ops: seq<Op>, op: Op)
    ensures Try(h, ops + [op]) == (var t := Try(h, ops); if Succeeds(t, op) then t + [op] else t)
    decreases |ops|
  {
    if ops == [] {
      assert (ops + [op])[1..] == [];
    } else {
      assert (ops + [op])[1..] == ops[1..] + [op];
      TryAppend(if Succeeds(h, ops[0]) then h + [ops[0]] else h, ops[1..], op);
    }
  }

  /** The last operation is accepted after the ones before it; nothing tried is no failure. */
  predicate LastSucceeds(h: seq<Op>, ops: seq<Op>) {
    ops == [] || Succeeds(Try(h, ops[..|ops| - 1]), ops[|ops| - 1])
  }

  lemma LastAppend(h: seq<Op>, ops: seq<Op>, op: Op)
    ensures LastSucceeds(h, ops + [op]) <==> Succeeds(Try(h, ops), op)
  {
    assert (ops + [op])[..|ops|] == ops;
  }

  ghost predicate HasPrint(fp: Message -> string, ms: seq<Message>, f: string) {
    exists i :: 0 <= i < |ms| && fp(ms[i]) == f
  }

  ghost predicate Logged(fp: Message -> string, h: seq<Op>, m: Message) {
    HasPrint(fp, Messages(h), fp(m))
  }

  lemma LoggedStays(fp: Message -> string, h: seq<Op>, op: Op, m: Message)
    requires Logged(fp, h, m) || MessageOf(op) == Some(m)
    ensures Logged(fp, h + [op], m)
  {
    MessagesAppend(h, op);
    var ms := Messages(h);
    if Logged(fp, h, m) {
      var i :| 0 <= i < |ms| && fp(ms[i]) == fp(m);
      assert fp(Messages(h + [op])[i]) == fp(m);
    } else {
      assert fp(Messages(h + [op])[|ms|]) == fp(m);
    }
  }

  /** A message is in the log from the first change on that it made. */
  lemma {:induction false} TriedIsLogged(fp: Message -> string, h: seq<Op>, ops: seq<Op>, m: Message)
    requires forall i :: 0 <= i < |ops| ==> MessageOf(ops[i]) == Some(m)
    ensures Try(h, ops) != h || Logged(fp, h, m) ==> Logged(fp, Try(h, ops), m)
    decreases |ops|
  {
    if ops != [] {
      var h' := if Succeeds(h, ops[0]) then h + [ops[0]] else h;
      if h' != h || Logged(fp, h, m) {
        if h' != h { LoggedStays(fp, h, ops[0], m); }
        TriedIsLogged(fp, h', ops[1..], m);
      } else {
        TriedIsLogged(fp, h, ops[1..], m);
      }
    }
  }

  lemma {:induction false} LastPrintMeaning(fp: Message -> string, ms: seq<Message>, f: string)
    ensures var k := LastPrint(fp, ms, f);
            && (k == -1 || 1 <= k <= |ms|)
            && (k == -1 <==> forall i :: 0 <= i < |ms| ==> fp(ms[i]) != f)
            && (k != -1 ==> fp(ms[k - 1]) == f)
            && (k != -1 ==> forall i :: k <= i < |ms| ==> fp(ms[i]) != f)
  {
    if ms != [] { LastPrintMeaning(fp, ms[..|ms| - 1], f); }
  }

  // ---------- reading the log ----------

  /** Messages `since`, `since` + 1, ... with their numbers. */
  function LogSince(ms: seq<Message>, since: int): seq<LogPut> {
    var lo := if since < 1 then 1 else since;
    if lo > |ms| then [] else seq(|ms| - lo + 1, i requires 0 <= i < |ms| - lo + 1 => LogPut(lo + i, ms[lo + i - 1]))
  }

  ghost predicate Copied(p: LogPut, log: map<nat, Message>) {
    p.idx >= 0 && p.idx in log && p.msg == log[p.idx]
  }

  ghost predicate Gathered(puts: seq<LogPut>, visited: seq<nat>, since: int, log: map<nat, Message>) {
    && (forall i :: 0 <= i < |puts| ==> puts[i].idx >= 0 && puts[i].idx in visited && puts[i].idx >= since)
    && (forall i :: 0 <= i < |puts| ==> Copied(puts[i], log))
    && (forall x :: x in visited && x >= since ==> HasIdx(puts, x))
    && (forall i, j :: 0 <= i < j < |puts| ==> puts[i].idx != puts[j].idx)
  }

  lemma GatherNext(puts: seq<LogPut>, order: seq<nat>, n: nat, since: int, log: map<nat, Message>)
    requires n < |order| && Lists(order, log.Keys) && Gathered(puts, order[..n], since, log)
    ensures order[n] in log
    ensures var more := if order[n] >= since then puts + [LogPut(order[n], log[order[n]])] else puts;
            Gathered(more, order[..n + 1], since, log)
  {
    var more := if order[n] >= since then puts + [LogPut(order[n], log[order[n]])] else puts;
    assert order[n] in order;
    assert order[..n + 1] == order[..n] + [order[n]];
    forall x | x in order[..n + 1] && x >= since
      ensures HasIdx(more, x)
    {
      if x in order[..n] {
        assert HasIdx(puts, x);
        var i :| 0 <= i < |puts| && puts[i].idx == x;
        assert more[i].idx == x;
      } else {
        assert more[|puts|].idx == x;
      }
    }
  }

  predicate InIdxOrder(puts: seq<LogPut>) {
    forall i, j :: 0 <= i < j < |puts| ==> puts[i].idx <= puts[j].idx
  }

  function InsertPut(p: LogPut, puts: seq<LogPut>): (r: seq<LogPut>)
    requires InIdxOrder(puts)
    ensures InIdxOrder(r) && multiset(r) == multiset(puts) + multiset{p}
  {
    if puts == [] then [p]
    else if p.idx <= puts[0].idx then [p] + puts
    else
      var r := InsertPut(p, puts[1..]);
      InsertBehind(puts, p, r);
      [puts[0]] + r
  }

  lemma InsertBehind(puts: seq<LogPut>, p: LogPut, r: seq<LogPut>)
    requires puts != [] && InIdxOrder(puts) && puts[0].idx < p.idx && InIdxOrder(r)
    requires multiset(r) == multiset(puts[1..]) + multiset{p}
    ensures InIdxOrder([puts[0]] + r) && multiset([puts[0]] + r) == multiset(puts) + multiset{p}
  {
    assert puts == [puts[0]] + puts[1..];
    forall i | 0 <= i < |r| ensures puts[0].idx <= r[i].idx {
      assert r[i] in multiset(r);
      assert r[i] in puts[1..] || r[i] == p;
    }
  }

  /** sort.Slice on the index. */
  function SortByIdx(puts: seq<LogPut>): (r: seq<LogPut>)
    ensures InIdxOrder(r) && multiset(r) == multiset(puts)
  {
    if puts == [] then []
    else
      assert puts == [puts[0]] + puts[1..];
      InsertPut(puts[0], SortByIdx(puts[1..]))
  }

  ghost predicate Strict(puts: seq<LogPut>) {
    forall i, j :: 0 <= i < j < |puts| ==> puts[i].idx < puts[j].idx
  }

  lemma {:induction false} InsertStrict(p: LogPut, puts: seq<LogPut>)
    requires InIdxOrder(puts) && Strict(puts) && forall i :: 0 <= i < |puts| ==> puts[i].idx != p.idx
    ensures Strict(InsertPut(p, puts))
  {
    if puts != [] && p.idx > puts[0].idx {
      InsertStrict(p, puts[1..]);
      var r := InsertPut(p, puts[1..]);
      forall i | 0 <= i < |r| ensures puts[0].idx < r[i].idx {
        assert r[i] in multiset(r);
        assert r[i] in puts[1..] || r[i] == p;
      }
    }
  }

  lemma {:induction false} SortStrict(puts: seq<LogPut>)
    requires forall i, j :: 0 <= i < j < |puts| ==> puts[i].idx != puts[j].idx
    ensures Strict(SortByIdx(puts))
  {
    if puts != [] {
      SortStrict(puts[1..]);
      var r := SortByIdx(puts[1..]);
      forall i | 0 <= i < |r| ensures r[i].idx != puts[0].idx {
        assert r[i] in multiset(r);
        assert r[i] in puts[1..];
      }
      InsertStrict(puts[0], r);
    }
  }

  /** The indexes of the list are exactly `lo` to `hi`. */
  ghost predicate Covers(r: seq<LogPut>, lo: int, hi: int) {
    && (forall i :: 0 <= i < |r| ==> lo <= r[i].idx <= hi)
    && (forall x :: lo <= x <= hi ==> HasIdx(r, x))
  }

  ghost predicate HasIdx(r: seq<LogPut>, x: int) {
    exists i :: 0 <= i < |r| && r[i].idx == x
  }

  lemma CoversFirst(r: seq<LogPut>, lo: int, hi: int)
    requires Covers(r, lo, hi) && |r| > 0
    ensures lo <= hi
  {
    assert lo <= r[0].idx <= hi;
  }

  /** A strictly increasing list of the indexes `lo` to `hi` has no gap. */
  lemma {:induction false} NoGap(r: seq<LogPut>, lo: int, hi: int)
    requires Strict(r) && Covers(r, lo, hi)
    ensures |r| == if lo <= hi then hi - lo + 1 else 0
    ensures forall i :: 0 <= i < |r| ==> r[i].idx == lo + i
    decreases |r|
  {
    if lo > hi {
      if |r| > 0 { CoversFirst(r, lo, hi); }
    } else {
      assert HasIdx(r, lo);
      assert r[0].idx == lo;
      assert forall i :: 0 <= i < |r[1..]| ==> r[1..][i] == r[i + 1];
      forall x | lo + 1 <= x <= hi ensures HasIdx(r[1..], x) {
        assert HasIdx(r, x);
        var i :| 0 <= i < |r| && r[i].idx == x;
        assert r[1..][i - 1].idx == x;
      }
      NoGap(r[1..], lo + 1, hi);
      forall i | 0 <= i < |r| ensures r[i].idx == lo + i {
        if i > 0 { assert r[i] == r[1..][i - 1]; }
      }
    }
  }

  lemma SortedCovers(log: map<nat, Message>, ms: seq<Message>, puts: seq<LogPut>, order: seq<nat>, since: int)
    requires LogIs(log, ms)
    requires Lists(order, log.Keys) && Gathered(puts, order, since, log)
    ensures Covers(SortByIdx(puts), if since < 1 then 1 else since, |ms|)
  {
    var r := SortByIdx(puts);
    var lo := if since < 1 then 1 else since;
    forall i | 0 <= i < |r| ensures lo <= r[i].idx <= |ms| {
      assert r[i] in multiset(r);
      assert r[i] in puts;
      assert LogAt(log, ms, r[i].idx);
    }
    forall x | lo <= x <= |ms| ensures HasIdx(r, x) {
      assert LogAt(log, ms, x);
      assert x in order && HasIdx(puts, x);
      var i :| 0 <= i < |puts| && puts[i].idx == x;
      assert puts[i] in multiset(puts);
      assert puts[i] in r;
    }
  }

  lemma SortedMessages(log: map<nat, Message>, puts: seq<LogPut>)
    requires forall i :: 0 <= i < |puts| ==> Copied(puts[i], log)
    ensures forall i :: 0 <= i < |SortByIdx(puts)| ==> Copied(SortByIdx(puts)[i], log)
  {
    var r := SortByIdx(puts);
    forall i | 0 <= i < |r| ensures Copied(r[i], log) {
      assert r[i] in multiset(r);
      assert r[i] in puts;
    }
  }

  lemma DenseIsLog(log: map<nat, Message>, ms: seq<Message>, r: seq<LogPut>, since: int)
    requires LogIs(log, ms)
    requires var lo := if since < 1 then 1 else since;
             |r| == (if lo <= |ms| then |ms| - lo + 1 else 0) && forall i :: 0 <= i < |r| ==> r[i].idx == lo + i
    requires forall i :: 0 <= i < |r| ==> Copied(r[i], log)
    ensures r == LogSince(ms, since)
  {
    forall i | 0 <= i < |r| ensures r[i] == LogSince(ms, since)[i] {
      assert Copied(r[i], log) && LogAt(log, ms, r[i].idx);
    }
  }

  /** Sorting what the scan gathered gives the log without a gap. */
  lemma SortedLog(log: map<nat, Message>, ms: seq<Message>, puts: seq<LogPut>, order: seq<nat>, since: int)
    requires LogIs(log, ms)
    requires Lists(order, log.Keys) && Gathered(puts, order, since, log)
    ensures SortByIdx(puts) == LogSince(ms, since)
  {
    SortStrict(puts);
    SortedCovers(log, ms, puts, order, since);
    NoGap(SortByIdx(puts), if since < 1 then 1 else since, |ms|);
    SortedMessages(log, puts);
    DenseIsLog(log, ms, SortByIdx(puts), since);
  }
}
