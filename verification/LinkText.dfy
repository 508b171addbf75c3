/**
 * The text of link records: parts joined by ':' when a link is stored, and split at ':'
 * when links are looked up (dht.go).
 */
module LinkText {
  import opened StoreHistory

  /** strings.Split at ':'. */
  function Split(s: string): (parts: seq<string>)
    ensures |parts| > 0
    ensures forall i :: 0 <= i < |parts| ==> ':' !in parts[i]
  {
    if s == [] then [""]
    else
      var parts := Split(s[1..]);
      if s[0] == ':' then [""] + parts else [[s[0]] + parts[0]] + parts[1..]
  }

  lemma {:induction false} SplitJoin(a: string, b: string)
    ensures Split(a + ":" + b) == Split(a) + Split(b)
  {
    var s := a + ":" + b;
    if a == [] {
      assert s[1..] == b;
    } else {
      assert s[1..] == a[1..] + ":" + b;
      SplitJoin(a[1..], b);
      SplitFirst(a);
      SplitFirst(s);
      FrontJoins(a[0], Split(a[1..]), Split(b));
    }
  }

  /** What the first character adds to the parts of the rest. */
  function Front(c: char, parts: seq<string>): seq<string>
    requires parts != []
  {
    if c == ':' then [""] + parts else [[c] + parts[0]] + parts[1..]
  }

  lemma SplitFirst(s: string)
    requires s != []
    ensures Split(s) == Front(s[0], Split(s[1..]))
  {
  }

  lemma FrontJoins(c: char, parts: seq<string>, more: seq<string>)
    requires parts != []
    ensures Front(c, parts + more) == Front(c, parts) + more
  {
    assert (parts + more)[1..] == parts[1..] + more;
  }

  lemma {:induction false} SplitWhole(a: string)
    ensures Split(a) == [a] <==> ':' !in a
  {
    if a != [] {
      SplitWhole(a[1..]);
      assert a == [a[0]] + a[1..];
      assert a[0] in a && forall c :: c in a[1..] ==> c in a;
      assert ':' in a ==> Split(a)[0] != a;
    }
  }

  lemma SplitKey(base: string, link: string, tag: string)
    ensures Split(LinkKey(base, link, tag)) == ["link"] + Split(base) + Split(link) + Split(tag)
  {
    SplitJoin("link:" + base + ":" + link, tag);
    SplitJoin("link:" + base, link);
    assert "link:" + base == "link" + ":" + base;
    SplitJoin("link", base);
    SplitWhole("link");
  }

  /** A hash in base 58 has no ':'. */
  predicate Plain(s: string) {
    ':' !in s
  }

  lemma CutUnique(a: string, x: string, b: string, y: string)
    requires Plain(a) && Plain(b) && a + ":" + x == b + ":" + y
    ensures a == b && x == y
  {
    var s := a + ":" + x;
    assert s[|a|] == ':' && s[|b|] == ':';
    assert forall i :: 0 <= i < |a| ==> s[i] == a[i] && a[i] in a;
    assert forall i :: 0 <= i < |b| ==> s[i] == b[i] && b[i] in b;
    assert s[..|a|] == a && s[..|b|] == b;
    assert s[|a| + 1..] == x && s[|b| + 1..] == y;
  }

  /** What follows the base in the key of a record. */
  function Rest(link: string, tag: string): string {
    link + ":" + tag
  }

  function RestKey(base: string, rest: string): string {
    "link" + ":" + (base + ":" + rest)
  }

  lemma KeyByRest(b: string, l: string, t: string)
    ensures LinkKey(b, l, t) == RestKey(b, Rest(l, t))
  {
  }

  /** Records of different bases are apart; links and tags may share one. */
  lemma KeyParts(b: string, r: string, b': string, r': string)
    requires Plain(b) && Plain(b') && RestKey(b, r) == RestKey(b', r')
    ensures b == b' && r == r'
  {
    CutUnique("link", b + ":" + r, "link", b' + ":" + r');
    CutUnique(b, r, b', r');
  }

  lemma SplitRestKey(b: string, r: string)
    requires Plain(b)
    ensures Split(RestKey(b, r)) == ["link", b] + Split(r)
  {
    SplitJoin("link", b + ":" + r);
    SplitJoin(b, r);
    SplitWhole("link");
    SplitWhole(b);
  }

  lemma {:induction false} OnePart(a: string)
    ensures |Split(a)| == 1 <==> Plain(a)
    ensures Plain(a) ==> Split(a) == [a]
  {
    if a != [] {
      OnePart(a[1..]);
      assert a == [a[0]] + a[1..];
    }
  }

  /** A rest with one ':' has one link and one tag; any other rest has several readings. */
  lemma RestParts(l: string, t: string)
    ensures Split(Rest(l, t)) == Split(l) + Split(t)
    ensures |Split(Rest(l, t))| == 2 <==> Plain(l) && Plain(t)
    ensures Plain(l) && Plain(t) ==> Split(Rest(l, t)) == [l, t]
  {
    SplitJoin(l, t);
    OnePart(l);
    OnePart(t);
  }

  lemma {:induction false} TwoParts(r: string)
    requires |Split(r)| == 2
    ensures r == Rest(Split(r)[0], Split(r)[1])
  {
    SplitFirst(r);
    assert r == [r[0]] + r[1..];
    if r[0] == ':' {
      OnePart(r[1..]);
    } else {
      TwoParts(r[1..]);
    }
  }
}
