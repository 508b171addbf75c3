/**
 * Libraries that obey the laws the chain proofs assume, so that none of those proofs is about
 * nothing: a concrete suite, a concrete chain over it, and the main results for that suite.
 */
module SampleSuite {
  import opened Collections
  import opened Wire
  import opened HeaderFormat
  import opened ChainFormat
  import opened Chain
  import opened ChainCodec
  import opened ChainTheorems
  import opened ChainFile
  import opened ChainStore

  // ---------- contents: four bytes for each character ----------

  function EncodeText(c: Content): (b: Bytes)
    ensures |b| == 4 * |c|
  {
    if c == [] then [] else LittleEndian(c[0] as int, 4) + EncodeText(c[1..])
  }

  predicate CharCode(n: int) {
    0 <= n < 0xD800 || 0xE000 <= n < 0x11_0000
  }

  function DecodeText(b: Bytes): Option<Content>
    decreases |b|
  {
    if b == [] then Some([])
    else if |b| < 4 then None
    else
      var n := FromLittleEndian(b[..4]);
      var rest := DecodeText(b[4..]);
      if CharCode(n) && rest.Some? then Some([n as char] + rest.value) else None
  }

  lemma Pow256Values()
    ensures Pow256(4) == 0x1_0000_0000 && Pow256(8) == 0x1_0000_0000_0000_0000
    ensures Pow256(14) == 0x1_0000_0000_0000_0000_0000_0000_0000
  {
    assert Pow256(3) == 0x100_0000;
    assert Pow256(6) == 0x1_0000_0000_0000;
    assert Pow256(9) == 0x100_0000_0000_0000_0000;
    assert Pow256(12) == 0x1_0000_0000_0000_0000_0000_0000;
  }

  lemma {:induction false} TextRoundTrip(c: Content)
    ensures DecodeText(EncodeText(c)) == Some(c)
  {
    if c != [] {
      TextRoundTrip(c[1..]);
      FirstChar(c[0], EncodeText(c[1..]));
      assert c == [c[0]] + c[1..];
    }
  }

  lemma FirstChar(ch: char, rest: Bytes)
    requires DecodeText(rest).Some?
    ensures DecodeText(LittleEndian(ch as int, 4) + rest) == Some([ch] + DecodeText(rest).value)
  {
    var n := ch as int;
    Pow256Values();
    LittleEndianRoundTrip(n, 4);
    var b := LittleEndian(n, 4) + rest;
    assert b[..4] == LittleEndian(n, 4) && b[4..] == rest;
  }

  // ---------- times ----------

  function EncodeTime(t: Time): Bytes {
    [1] + LittleEndian(t, 14)
  }

  function DecodeTime(b: Bytes): Time {
    var n := if |b| == TIME_SIZE then FromLittleEndian(b[1..]) else 0;
    if n < 0x1_0000_0000_0000_0000_0000_0000_0000 then n else 0
  }

  lemma TimeRoundTrip(t: Time)
    ensures |EncodeTime(t)| == TIME_SIZE && DecodeTime(EncodeTime(t)) == t
  {
    Pow256Values();
    LittleEndianRoundTrip(t, 14);
    assert EncodeTime(t)[1..] == LittleEndian(t, 14);
  }

  // ---------- the suite ----------

  /** The length and the first bytes: enough to tell a few short strings apart. */
  function Digest(b: Bytes): Bytes {
    [18, |b| % 256] + (if |b| >= 32 then b[..32] else b + Zeros(32 - |b|))
  }

  function SampleIsHash(b: Bytes): bool { |b| == HASH_SIZE && b[0] != 0 }

  function SampleSign(b: Bytes): Option<Bytes> { Some([7]) }

  const SAMPLE := Suite(Digest, SampleIsHash, EncodeText, DecodeText, EncodeTime, DecodeTime, SampleSign)

  lemma SampleLawful()
    ensures HeaderFormat.Lawful(SAMPLE)
  {
    Pow256Values();
    forall c ensures SAMPLE.decode(SAMPLE.encode(c)) == Some(c) {
      TextRoundTrip(c);
    }
    forall t ensures |SAMPLE.encodeTime(t)| == TIME_SIZE && SAMPLE.decodeTime(SAMPLE.encodeTime(t)) == t {
      TimeRoundTrip(t);
    }
  }

  function SampleFormat(): Format {
    FormatOf(SAMPLE)
  }

  /** The laws hold, and the stream methods may be called. */
  lemma SampleFormatLawful()
    ensures ChainFormat.Lawful(SampleFormat()) && Realises(SampleFormat(), SAMPLE)
  {
    SampleLawful();
    RealFormat(SAMPLE);
    FormatRealised(SAMPLE);
  }

  // ---------- the main results for it ----------

  lemma SampleStream(v: Value, flags: nat, whitelist: seq<Bytes>, private: seq<Bytes>)
    requires 0 < |v.headers| == |v.entries| == |v.hashes| < Pow256(8) / 2 && flags < Pow256(8)
    requires EntriesFit(SampleFormat(), v)
    ensures var f := SampleFormat();
            ParseChain(f, ChainBytes(f, v, flags, whitelist, private) + [])
            == Ok((flags, Intended(f, v, flags, whitelist, private)), [])
            <==> HeadersFit(v, flags, whitelist) && NoClash(v, flags, whitelist, private)
  {
    SampleFormatLawful();
    ChainReadBackIff(SampleFormat(), v, flags, whitelist, private, []);
  }

  lemma SampleReload(v: Value)
    requires Sound(SampleFormat(), v) && Fits(SampleFormat(), v)
    ensures LoadFile(SampleFormat(), PairsBytes(SampleFormat(), Zip(v.headers, v.entries))) == Success(v)
  {
    SampleFormatLawful();
    LoadSaved(SampleFormat(), v);
  }

  // ---------- a chain that meets what they ask for ----------

  function FirstHeader(): Header {
    Header([], 0, NULL_HASH, Digest([]), NULL_HASH, [7], [], Some(NULL_HASH))
  }

  function FirstChain(): Value {
    Append(EMPTY, HeaderHash(SampleFormat(), FirstHeader()), FirstHeader(), "")
  }

  lemma FirstChainSound()
    ensures Sound(SampleFormat(), FirstChain())
  {
    var f := SampleFormat();
    EmptySound(f);
    AppendSound(f, EMPTY, 0, [], "", None);
    assert EntryHash(f, "") == Digest([]);
    assert Prepare(f, EMPTY, 0, [], "", None) == Some((HeaderHash(f, FirstHeader()), FirstHeader()));
  }

  lemma FirstChainFits()
    ensures var f, v := SampleFormat(), FirstChain();
            && Writable(FirstHeader()) && Fits(f, v) && GoodHash(v.hashes[0]) && AsRead(f, v)
            && |f.headerBytes(FirstHeader())| == 163
  {
    var f, h := SampleFormat(), FirstHeader();
    SampleFormatLawful();
    assert |Digest([])| == HASH_SIZE;
    assert HashLaw(f, f.headerBytes(h)) && EntryLaw(f, "") && HeaderLaw(f, h);
  }

  lemma TwoApart(f: Format, a: Bytes, b: Bytes)
    requires f.hash(a) != f.hash(b)
    ensures NoCollision(f, {a, b})
  {
  }

  lemma DigestApart(a: Bytes)
    requires |a| == 163
    ensures Digest(a) != Digest([])
  {
    assert Digest(a)[1] == 163 && Digest([])[1] == 0;
  }

  /** The requires of the results about read, validated and saved chains can be met together. */
  lemma FirstChainMeetsAll()
    ensures var f, v := SampleFormat(), FirstChain();
            && ChainFormat.Lawful(f) && Sound(f, v) && Fits(f, v) && AsRead(f, v) && Validates(f, v, false)
            && v.headers[0].headerLink == NULL_HASH && NoCollision(f, Hashed(f, v))
  {
    var f, v := SampleFormat(), FirstChain();
    SampleFormatLawful();
    FirstChainSound();
    FirstChainFits();
    SoundValidates(f, v);
    var b := f.headerBytes(FirstHeader());
    DigestApart(b);
    TwoApart(f, b, []);
    HashedFirst(f, v, FirstHeader());
    assert EncodeText("") == [];
  }

  lemma HashedFirst(f: Format, v: Value, h: Header)
    requires v.headers == [h] && v.entries == [""]
    ensures Hashed(f, v) == {f.headerBytes(h), f.encode("")}
  {
  }

  /** A clash: the first entry is of a private type, and the stream is to have no entries. */
  lemma PrivateFirst(v: Value, flags: nat, private: seq<Bytes>)
    requires |v.headers| == |v.entries| == |v.hashes| == 1 && Writable(v.headers[0]) && GoodHash(v.hashes[0])
    requires HasFlag(flags, NO_ENTRIES) && v.headers[0].typ in private
    ensures HeadersFit(v, flags, []) && !NoClash(v, flags, [], private)
  {
    assert Chosen(v, 0, []) && !FilterPass(v.headers[0], [], private);
  }

  /** The chain with one entry, packed without entries when its type is private, is not read back. */
  lemma FirstChainClashes(flags: nat, private: seq<Bytes>)
    requires flags < Pow256(8) && HasFlag(flags, NO_ENTRIES) && FirstHeader().typ in private
    ensures var f, v := SampleFormat(), FirstChain();
            ParseChain(f, ChainBytes(f, v, flags, [], private) + [])
            != Ok((flags, Intended(f, v, flags, [], private)), [])
  {
    FirstChainFits();
    Pow256Values();
    PrivateFirst(FirstChain(), flags, private);
    SampleStream(FirstChain(), flags, [], private);
  }
}
