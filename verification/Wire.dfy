/**
 * Byte streams and the fields of the chain formats: length-prefixed strings, hashes and
 * little-endian numbers (hash/hash.go, header.go, entry.go). What a reader makes of a
 * stream is a function of its bytes; the stream methods are proved to follow it.
 */
module Wire {
  import opened Collections
  import opened Keyspace

  type Bytes = seq<Byte>

  /** `EOF` when nothing was left to read, `UnexpectedEOF` when the stream ended inside a field. */
  datatype Error = EOF | UnexpectedEOF | BadEntry | NilHash | Incomplete | IndexMoved | Mismatch | Panic

  /** The outcome of reading from the front of a byte string. */
  datatype Parsed<+T> = Ok(value: T, rest: Bytes) | Bad(error: Error)

  const HASH_SIZE := 34

  const NULL_HASH: Bytes := [0]

  function Zeros(n: nat): Bytes { seq(n, _ => 0) }

  function TakeBytes(n: nat, s: Bytes): (p: Parsed<Bytes>)
    ensures p.Ok? ==> |p.value| == n && s == p.value + p.rest
  {
    if n <= |s| then Ok(s[..n], s[n..]) else if s == [] then Bad(EOF) else Bad(UnexpectedEOF)
  }

  // ---------- strings: a length byte, then the bytes ----------

  /** The length is written as a uint8, so it wraps at 256. */
  function StrBytes(str: Bytes): Bytes {
    [|str| % 256] + str
  }

  function ParseStr(s: Bytes): Parsed<Bytes> {
    match TakeBytes(1, s)
    case Bad(e) => Bad(e)
    case Ok(l, rest) => TakeBytes(l[0], rest)
  }

  // ---------- hashes: 34 bytes, all zero for the null hash ----------

  predicate GoodHash(h: Bytes) {
    h == NULL_HASH || (|h| == HASH_SIZE && h[0] != 0)
  }

  function HashBytes(h: Bytes): Bytes {
    if h == NULL_HASH then Zeros(HASH_SIZE) else h
  }

  function ParseHash(s: Bytes): (p: Parsed<Bytes>)
    ensures p.Ok? ==> GoodHash(p.value)
  {
    match TakeBytes(HASH_SIZE, s)
    case Bad(e) => Bad(e)
    case Ok(b, rest) => Ok(if b[0] == 0 then NULL_HASH else b, rest)
  }

  // ---------- numbers: eight bytes, little end first ----------

  function Pow256(k: nat): nat {
    if k == 0 then 1 else 256 * Pow256(k - 1)
  }

  function LittleEndian(n: nat, k: nat): (b: Bytes)
    ensures |b| == k
  {
    if k == 0 then [] else [n % 256] + LittleEndian(n / 256, k - 1)
  }

  function FromLittleEndian(b: Bytes): nat {
    if b == [] then 0 else b[0] + 256 * FromLittleEndian(b[1..])
  }

  function ParseU64(s: Bytes): Parsed<nat> {
    match TakeBytes(8, s)
    case Bad(e) => Bad(e)
    case Ok(b, rest) => Ok(FromLittleEndian(b), rest)
  }

  /** Two's complement. */
  function AsInt64(u: nat): int {
    if u < Pow256(8) / 2 then u else u - Pow256(8)
  }

  /** The first byte counts ones, each further one 256 times as much. */
  lemma U64Digits(b: Bytes, rest: Bytes)
    requires |b| == 8
    ensures var d: seq<int> := b;
            ParseU64(b + rest) == Ok(d[0] + 256 * (d[1] + 256 * (d[2] + 256 * (d[3] + 256 *
              (d[4] + 256 * (d[5] + 256 * (d[6] + 256 * d[7])))))), rest)
  {
    assert (b + rest)[..8] == b && (b + rest)[8..] == rest;
    FirstDigits(b);
    FirstDigits(b[4..]);
    assert b[4..][4..] == [];
  }

  lemma FirstDigits(b: Bytes)
    requires |b| >= 4
    ensures var d: seq<int> := b;
            FromLittleEndian(b) == d[0] + 256 * (d[1] + 256 * (d[2] + 256 * (d[3] + 256 * FromLittleEndian(b[4..]))))
  {
    assert b[1..][1..] == b[2..] && b[2..][1..] == b[3..] && b[3..][1..] == b[4..];
    assert FromLittleEndian(b[2..]) == b[2] + 256 * FromLittleEndian(b[3..]);
  }

  // ---------- reading back what was written ----------

  lemma StrRoundTrip(str: Bytes, rest: Bytes)
    requires |str| <= 255
    ensures ParseStr(StrBytes(str) + rest) == Ok(str, rest)
  {
    var s := StrBytes(str) + rest;
    assert s[1..] == str + rest;
    assert (str + rest)[..|str|] == str && (str + rest)[|str|..] == rest;
  }

  lemma HashRoundTrip(h: Bytes, rest: Bytes)
    requires GoodHash(h)
    ensures ParseHash(HashBytes(h) + rest) == Ok(h, rest)
  {
    var s := HashBytes(h) + rest;
    assert s[..HASH_SIZE] == HashBytes(h) && s[HASH_SIZE..] == rest;
  }

  lemma {:induction false} LittleEndianRoundTrip(n: nat, k: nat)
    requires n < Pow256(k)
    ensures FromLittleEndian(LittleEndian(n, k)) == n
  {
    if k > 0 {
      LittleEndianRoundTrip(n / 256, k - 1);
      var b := LittleEndian(n, k);
      assert b[1..] == LittleEndian(n / 256, k - 1);
    }
  }

  lemma {:induction false} LittleEndianWraps(n: nat, k: nat)
    ensures Pow256(k) > 0 && FromLittleEndian(LittleEndian(n, k)) == n % Pow256(k)
  {
    if k > 0 {
      LittleEndianWraps(n / 256, k - 1);
      var b, p := LittleEndian(n, k), Pow256(k - 1);
      assert b[1..] == LittleEndian(n / 256, k - 1);
      DigitsModulo(n, p);
    }
  }

  lemma DigitsModulo(n: nat, p: nat)
    requires p > 0
    ensures n % 256 + 256 * (n / 256 % p) == n % (256 * p)
  {
    var q, r := n / 256 / p, n / 256 % p;
    assert n / 256 == q * p + r;
    assert n == 256 * p * q + (256 * r + n % 256);
    QuotientUnique(n, 256 * p, q, 256 * r + n % 256);
  }

  lemma QuotientUnique(n: nat, d: nat, q: nat, r: nat)
    requires r < d && n == d * q + r
    ensures n % d == r
  {
    var a, b := n / d, n % d;
    assert n == d * a + b;
    Steps(d, a, q);
    Steps(d, q, a);
  }

  lemma {:induction false} Steps(d: nat, a: nat, q: nat)
    ensures a < q ==> d * q >= d * a + d
  {
    if a < q {
      Steps(d, a, q - 1);
      assert d * q == d * (q - 1) + d;
    }
  }

  /** What is left of a number in eight bytes. */
  function AsU64(n: nat): (r: nat)
    ensures n < Pow256(8) ==> r == n
    ensures n >= Pow256(8) ==> r < n
  {
    LittleEndianWraps(n, 8);
    n % Pow256(8)
  }

  lemma U64Wraps(n: nat, rest: Bytes)
    ensures ParseU64(LittleEndian(n, 8) + rest) == Ok(AsU64(n), rest)
  {
    var s := LittleEndian(n, 8) + rest;
    assert s[..8] == LittleEndian(n, 8) && s[8..] == rest;
    LittleEndianWraps(n, 8);
  }

  lemma U64RoundTrip(n: nat, rest: Bytes)
    requires n < Pow256(8)
    ensures ParseU64(LittleEndian(n, 8) + rest) == Ok(n, rest)
  {
    var s := LittleEndian(n, 8) + rest;
    assert s[..8] == LittleEndian(n, 8) && s[8..] == rest;
    LittleEndianRoundTrip(n, 8);
  }

  // ---------- streams that are cut short: nothing left at the start of a part, something inside ----------

  lemma TakeCut(b: Bytes, rest: Bytes, k: nat)
    requires k <= |b + rest|
    ensures TakeBytes(|b|, (b + rest)[..k])
            == if k < |b| then Bad(if k == 0 then EOF else UnexpectedEOF) else Ok(b, rest[..k - |b|])
  {
    var s := (b + rest)[..k];
    if k >= |b| {
      assert s[..|b|] == b && s[|b|..] == rest[..k - |b|];
    }
  }

  lemma StrCut(str: Bytes, rest: Bytes, k: nat)
    requires |str| <= 255 && k <= |StrBytes(str) + rest|
    ensures ParseStr((StrBytes(str) + rest)[..k])
            == if k < 1 + |str| then Bad(if k <= 1 then EOF else UnexpectedEOF) else Ok(str, rest[..k - 1 - |str|])
  {
    assert StrBytes(str) + rest == [|str|] + (str + rest);
    TakeCut([|str|], str + rest, k);
    if k > 0 { TakeCut(str, rest, k - 1); }
  }

  lemma HashCut(h: Bytes, rest: Bytes, k: nat)
    requires GoodHash(h) && k <= |HashBytes(h) + rest|
    ensures ParseHash((HashBytes(h) + rest)[..k])
            == if k < HASH_SIZE then Bad(if k == 0 then EOF else UnexpectedEOF) else Ok(h, rest[..k - HASH_SIZE])
  {
    TakeCut(HashBytes(h), rest, k);
  }

  // ---------- a field read from a stream is read the same when more follows ----------

  lemma TakeExtends(n: nat, s: Bytes, t: Bytes)
    requires TakeBytes(n, s).Ok?
    ensures TakeBytes(n, s + t) == Ok(TakeBytes(n, s).value, TakeBytes(n, s).rest + t)
  {
    assert (s + t)[..n] == s[..n] && (s + t)[n..] == s[n..] + t;
  }

  lemma StrExtends(s: Bytes, t: Bytes)
    requires ParseStr(s).Ok?
    ensures ParseStr(s + t) == Ok(ParseStr(s).value, ParseStr(s).rest + t)
  {
    TakeExtends(1, s, t);
    var p := TakeBytes(1, s);
    TakeExtends(p.value[0], p.rest, t);
  }

  lemma HashExtends(s: Bytes, t: Bytes)
    requires ParseHash(s).Ok?
    ensures ParseHash(s + t) == Ok(ParseHash(s).value, ParseHash(s).rest + t)
  {
    TakeExtends(HASH_SIZE, s, t);
  }

  // ---------- streams ----------

  datatype Result<+T> = Success(value: T) | Failure(error: Error)

  /** What a reader has to deliver: the value and the rest of the stream, or the error. */
  ghost predicate Follows<T>(p: Parsed<T>, r: Result<T>, data: Bytes) {
    match p
    case Ok(v, rest) => r == Success(v) && data == rest
    case Bad(e) => r == Failure(e)
  }

  class Stream {
    var data: Bytes

    constructor (data: Bytes)
      ensures this.data == data
    {
      this.data := data;
    }

    method Write(b: Bytes)
      modifies this
      ensures data == old(data) + b
    {
      data := data + b;
    }

    method Read(n: nat) returns (r: Result<Bytes>)
      modifies this
      ensures Follows(TakeBytes(n, old(data)), r, data)
    {
      if n <= |data| {
        r := Success(data[..n]);
        data := data[n..];
      } else {
        r := Failure(if data == [] then EOF else UnexpectedEOF);
        data := [];
      }
    }
  }

  method WriteStr(w: Stream, str: Bytes)
    modifies w
    ensures w.data == old(w.data) + StrBytes(str)
  {
    w.Write([|str| % 256]);
    w.Write(str);
  }

  method ReadStr(r: Stream) returns (res: Result<Bytes>)
    modifies r
    ensures Follows(ParseStr(old(r.data)), res, r.data)
  {
    res := r.Read(1);
    if res.Success? {
      res := r.Read(res.value[0]);
    }
  }

  /** None is a nil hash; an empty hash that is not nil goes out as no bytes. */
  method MarshalHash(w: Stream, h: Option<Bytes>) returns (ok: bool)
    modifies w
    ensures ok <==> h.Some?
    ensures w.data == old(w.data) + if ok then HashBytes(h.value) else []
  {
    if h == Some(NULL_HASH) {
      w.Write(Zeros(HASH_SIZE));
    } else if h.None? {
      return false;
    } else {
      w.Write(h.value);
    }
    return true;
  }

  method UnmarshalHash(r: Stream) returns (res: Result<Bytes>)
    modifies r
    ensures Follows(ParseHash(old(r.data)), res, r.data)
  {
    res := r.Read(HASH_SIZE);
    if res.Success? && res.value[0] == 0 {
      res := Success(NULL_HASH);
    }
  }

  method WriteU64(w: Stream, n: nat)
    modifies w
    ensures w.data == old(w.data) + LittleEndian(n, 8)
  {
    w.Write(LittleEndian(n, 8));
  }

  method ReadU64(r: Stream) returns (res: Result<nat>)
    modifies r
    ensures Follows(ParseU64(old(r.data)), res, r.data)
  {
    var b := r.Read(8);
    match b {
      case Success(x) => res := Success(FromLittleEndian(x));
      case Failure(e) => res := Failure(e);
    }
  }
}
