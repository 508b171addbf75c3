/**
 * Stores that can be reached and whose links are not looked up as the replay demands: a tag
 * or a link text with ':' in it is enough.
 */
module LinkWitness {
  import opened Collections
  import opened StoreHistory
  import opened LinkText
  import opened DhtStore
  import opened LinkQuery

  const M := Message("agent", "entry", "")

  function Base(): Op {
    Put(None, "t", "b", "s", "v", LIVE)
  }

  function OneLink(link: string, tag: string): seq<Op> {
    [Base(), Op.Link(M, "b", link, tag, LIVE)]
  }

  lemma BaseOnly()
    ensures StatusOf([Base()], "b") == LIVE && forall key :: EventsAt([Base()], key) == []
  {
    assert [Base()][..0] == [];
    assert forall key :: EventsAt([], key) == [];
  }

  lemma OneLinkHistory(link: string, tag: string)
    ensures var h := OneLink(link, tag);
            && Lawful(h) && HashBases(h) && StatusOf(h, "b") == LIVE
            && Events(h, "b", link, tag) == [Event(LIVE, "agent", "entry")]
            && forall key :: EventsAt(h, key)
                             == if key == LinkKey("b", link, tag) then [Event(LIVE, "agent", "entry")] else []
  {
    var h := OneLink(link, tag);
    BaseOnly();
    assert h[..1] == [Base()] && h[..0] == [];
    assert [Base()][..0] == [];
    assert Events([], "b", link, tag) == [];
    assert Events([Base()], "b", link, tag) == [];
  }

  /** With one record there is one order to scan. */
  lemma OneRecord(links: map<string, seq<Event>>, h: seq<Op>, order: seq<string>, key: string)
    requires LinksOk(links, h) && Lists(order, links.Keys)
    requires forall k :: EventsAt(h, k) != [] <==> k == key
    ensures order == [key] && key in links && links[key] == EventsAt(h, key)
  {
    assert LinkOk(links, h, key);
    forall k | k in order ensures k == key { assert LinkOk(links, h, k); }
    forall i | 0 <= i < |order| ensures order[i] == key { assert order[i] in order; }
    assert key in order;
    SameSize(order, [key]);
  }

  lemma ScanOne(links: map<string, seq<Event>>, key: string, base: string, tag: string, mask: nat)
    requires key in links && |Split(key)| >= 4
    ensures KeysSplit([key], links)
    ensures ScanLinks(links, [key], base, tag, mask)
            == var hit := Hit(links[key], key, base, tag, mask); if hit.Some? then [hit.value] else []
  {
    assert [key][..0] == [];
    assert ScanLinks(links, [], base, tag, mask) == [];
  }

  /** What a lookup in the store with one link finds. */
  lemma OneLinkLookup(fp: Message -> string, link: string, tag: string, order: seq<string>, asked: string)
    requires Lists(order, RunStore(fp, OneLink(link, tag)).links.Keys)
    ensures var h, db := OneLink(link, tag), RunStore(fp, OneLink(link, tag));
            && Represents(fp, db, h) && HashBases(h) && KeysSplit(order, db.links)
            && (Wanted(h, "b", asked, 0, (link, tag)) <==> asked == "" || asked == tag)
            && var x := Split(link) + Split(tag);
               |x| >= 2
               && ScanLinks(db.links, order, "b", asked, 0)
                  == if asked == "" then [TaggedHash(x[0], x[1], "agent")]
                     else if asked == x[1] then [TaggedHash(x[0], "", "agent")] else []
  {
    var h, key := OneLink(link, tag), LinkKey("b", link, tag);
    OneLinkHistory(link, tag);
    LawfulIsReachable(fp, h);
    var links := RunStore(fp, h).links;
    OneRecord(links, h, order, key);
    KeyByRest("b", link, tag);
    SplitRestKey("b", Rest(link, tag));
    RestParts(link, tag);
    ScanOne(links, key, "b", asked, 0);
    HitOne(link, tag, asked);
  }

  lemma HitOne(link: string, tag: string, asked: string)
    ensures var x, key := Split(link) + Split(tag), LinkKey("b", link, tag);
            |x| >= 2 && |Split(key)| >= 4
            && Hit([Event(LIVE, "agent", "entry")], key, "b", asked, 0)
               == if asked == "" then Some(TaggedHash(x[0], x[1], "agent"))
                  else if asked == x[1] then Some(TaggedHash(x[0], "", "agent")) else None
  {
    var x, key := Split(link) + Split(tag), LinkKey("b", link, tag);
    KeyByRest("b", link, tag);
    SplitRestKey("b", Rest(link, tag));
    RestParts(link, tag);
    var y := Split(key);
    assert y[1] == "b" && y[2] == x[0] && y[3] == x[1];
  }

  /** A tag with ':' is stored but cannot be asked for. */
  lemma ColonTagIsLost(fp: Message -> string, link: string, tag: string, order: seq<string>)
    requires Plain(link) && !Plain(tag) && Lists(order, RunStore(fp, OneLink(link, tag)).links.Keys)
    ensures var h, db := OneLink(link, tag), RunStore(fp, OneLink(link, tag));
            && Represents(fp, db, h) && KeysSplit(order, db.links)
            && Wanted(h, "b", tag, 0, (link, tag)) && ScanLinks(db.links, order, "b", tag, 0) == []
  {
    OneLinkLookup(fp, link, tag, order, tag);
    var x := Split(link) + Split(tag);
    OnePart(link);
    assert x[1] == Split(tag)[0] && Plain(x[1]);
  }

  /** A link with ':' is reported with a part of itself for the link and another part for the tag. */
  lemma ColonLinkIsMisread(fp: Message -> string, x: string, y: string, tag: string, order: seq<string>)
    requires Plain(x) && Plain(y) && Lists(order, RunStore(fp, OneLink(Rest(x, y), tag)).links.Keys)
    ensures var h, db := OneLink(Rest(x, y), tag), RunStore(fp, OneLink(Rest(x, y), tag));
            && Represents(fp, db, h) && KeysSplit(order, db.links)
            && Wanted(h, "b", "", 0, (Rest(x, y), tag))
            && ScanLinks(db.links, order, "b", "", 0) == [TaggedHash(x, y, "agent")]
  {
    OneLinkLookup(fp, Rest(x, y), tag, order, "");
    RestParts(x, y);
  }

  function WrongDelete(x: string, y: string, z: string): seq<Op> {
    OneLink(Rest(x, y), z) + [Op.Link(M, "b", x, Rest(y, z), DELETED)]
  }

  /** Two links share a record: a link that was never made can be deleted, and another one is gone with it. */
  lemma ColonLinkIsDeleted(fp: Message -> string, x: string, y: string, z: string, order: seq<string>)
    requires Plain(x) && Plain(y) && Lists(order, RunStore(fp, WrongDelete(x, y, z)).links.Keys)
    ensures var h, db := WrongDelete(x, y, z), RunStore(fp, WrongDelete(x, y, z));
            && Represents(fp, db, h) && KeysSplit(order, db.links)
            && Wanted(h, "b", "", 0, (Rest(x, y), z)) && ScanLinks(db.links, order, "b", "", 0) == []
  {
    var h, key := WrongDelete(x, y, z), LinkKey("b", Rest(x, y), z);
    WrongDeleteHistory(x, y, z);
    LawfulIsReachable(fp, h);
    var links := RunStore(fp, h).links;
    OneRecord(links, h, order, key);
    DeletedScan(links, Rest(x, y), z);
  }

  lemma DeletedScan(links: map<string, seq<Event>>, link: string, tag: string)
    requires var key := LinkKey("b", link, tag);
             key in links && links[key] != [] && links[key][|links[key]| - 1].status == DELETED
    ensures KeysSplit([LinkKey("b", link, tag)], links) && ScanLinks(links, [LinkKey("b", link, tag)], "b", "", 0) == []
  {
    HitOne(link, tag, "");
    ScanOne(links, LinkKey("b", link, tag), "b", "", 0);
  }

  lemma WrongDeleteHistory(x: string, y: string, z: string)
    ensures var h, key := WrongDelete(x, y, z), LinkKey("b", Rest(x, y), z);
            && Lawful(h) && Wanted(h, "b", "", 0, (Rest(x, y), z))
            && (forall k :: EventsAt(h, k) != [] <==> k == key)
            && var es := EventsAt(h, key); es[|es| - 1].status == DELETED
  {
    var first, h, key := OneLink(Rest(x, y), z), WrongDelete(x, y, z), LinkKey("b", Rest(x, y), z);
    var op := Op.Link(M, "b", x, Rest(y, z), DELETED);
    assert LinkKey("b", x, Rest(y, z)) == key;
    OneLinkHistory(Rest(x, y), z);
    assert h[..|h| - 1] == first && h[|h| - 1] == op;
    LawfulGrows(first, op);
    assert |x| != |Rest(x, y)|;
    EventsNext(h, "b", Rest(x, y), z);
    forall k ensures EventsAt(h, k) != [] <==> k == key { EventsAtNext(h, k); }
    EventsAtNext(h, key);
  }
}
