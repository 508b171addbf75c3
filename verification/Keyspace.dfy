/**
 * The XOR key space of hash/hash.go: peer ids and hashes are byte strings, their
 * distance is the big-endian number spelled by their bitwise exclusive or.
 */
module Keyspace {

  type Byte = b: int | 0 <= b < 256

  type Id = seq<Byte>

  /** `b >> k` on a non-negative integer, one place at a time. */
  function Shr(b: nat, k: nat): nat {
    if k == 0 then b else Shr(b / 2, k - 1)
  }

  /** The `n` low bits of `a ^ b`. */
  function XorBits(a: nat, b: nat, n: nat): nat {
    if n == 0 then 0 else 2 * XorBits(a / 2, b / 2, n - 1) + (if a % 2 == b % 2 then 0 else 1)
  }

  function XorByte(a: Byte, b: Byte): Byte {
    XorBitsRange(a, b, 8);
    assert Pow2(8) == 256 by { assert Pow2(4) == 16; }
    XorBits(a, b, 8)
  }

  function Pow2(n: nat): nat {
    if n == 0 then 1 else 2 * Pow2(n - 1)
  }

  function XorId(a: Id, b: Id): (c: Id)
    requires |a| <= |b|
  {
    seq(|a|, i requires 0 <= i < |a| => XorByte(a[i], b[i]))
  }

  /** Bit `j` of a byte, `(b >> (7 - j)) & 1`. */
  function ByteBit(b: Byte, j: nat): nat
    requires j < 8
  {
    Shr(b, 7 - j) % 2
  }

  /** Bit `k` of an id, the most significant bit of the first byte being bit 0. */
  function BitAt(id: Id, k: nat): nat
    requires k < 8 * |id|
  {
    ByteBit(id[k / 8], k % 8)
  }

  /** The big-endian reading of a byte string, `big.Int.SetBytes`. */
  function BigEndian(s: Id): nat {
    if s == [] then 0 else 256 * BigEndian(s[..|s| - 1]) + s[|s| - 1]
  }

  function Distance(a: Id, b: Id): nat
    requires |a| <= |b|
  {
    BigEndian(XorId(a, b))
  }

  /** The first set bit at or after `k`. */
  function FirstOne(id: Id, k: nat): (r: nat)
    requires k <= 8 * |id|
    ensures k <= r <= 8 * |id|
    ensures forall i :: k <= i < r ==> BitAt(id, i) == 0
    ensures r < 8 * |id| ==> BitAt(id, r) == 1
    decreases 8 * |id| - k
  {
    if k == 8 * |id| || BitAt(id, k) == 1 then k else FirstOne(id, k + 1)
  }

  function CommonPrefixLen(a: Id, b: Id): nat
    requires |a| <= |b|
  {
    FirstOne(XorId(a, b), 0)
  }

  // ---------- the loops of the source ----------

  method Xor(a: Id, b: Id) returns (c: Id)
    requires |a| <= |b|
    ensures c == XorId(a, b)
  {
    var buf := new Byte[|a|];
    for i := 0 to |a|
      invariant forall j :: 0 <= j < i ==> buf[j] == XorByte(a[j], b[j])
    {
      buf[i] := XorByte(a[i], b[i]);
    }
    c := buf[..];
  }

  method ZeroPrefixLen(id: Id) returns (n: nat)
    ensures n <= 8 * |id|
    ensures forall k :: 0 <= k < n ==> BitAt(id, k) == 0
    ensures n < 8 * |id| ==> BitAt(id, n) == 1
    ensures n == FirstOne(id, 0)
  {
    for i := 0 to |id|
      invariant forall k :: 0 <= k < 8 * i ==> BitAt(id, k) == 0
    {
      for j := 0 to 8
        invariant forall k :: 0 <= k < 8 * i + j ==> BitAt(id, k) == 0
      {
        assert (8 * i + j) / 8 == i && (8 * i + j) % 8 == j;
        if ByteBit(id[i], j) != 0 {
          return 8 * i + j;
        }
        assert BitAt(id, 8 * i + j) == 0;
      }
    }
    return 8 * |id|;
  }

  // ---------- bits of bytes ----------

  lemma {:induction false} XorBitsRange(a: nat, b: nat, n: nat)
    ensures XorBits(a, b, n) < Pow2(n)
  {
    if n > 0 { XorBitsRange(a / 2, b / 2, n - 1); }
  }

  lemma {:induction false} XorBit(a: nat, b: nat, n: nat, k: nat)
    requires k < n
    ensures Shr(XorBits(a, b, n), k) % 2 == if Shr(a, k) % 2 == Shr(b, k) % 2 then 0 else 1
  {
    if k > 0 {
      assert XorBits(a, b, n) / 2 == XorBits(a / 2, b / 2, n - 1);
      XorBit(a / 2, b / 2, n - 1, k - 1);
    }
  }

  lemma {:induction false} ShrHalf(x: nat, k: nat)
    ensures Shr(x, k + 1) == Shr(x, k) / 2
  {
    if k > 0 { ShrHalf(x / 2, k - 1); }
  }

  lemma {:induction false} ShrOrder(x: nat, y: nat, k: nat)
    ensures Shr(x, k) < Shr(y, k) ==> x < y
  {
    if k > 0 { ShrOrder(x / 2, y / 2, k - 1); }
  }

  lemma ShrByte(x: Byte)
    ensures Shr(x, 8) == 0
  {
    assert Shr(x, 8) == Shr(x / 2 / 2 / 2 / 2, 4) by { assert Shr(x, 8) == Shr(x / 2 / 2, 6); }
    assert Shr(x / 2 / 2 / 2 / 2, 4) == Shr(x / 2 / 2 / 2 / 2 / 2 / 2, 2);
  }

  /** Two bytes that agree on their first `j` bits agree after a shift by `8 - j`. */
  lemma {:induction false} ByteTop(x: Byte, y: Byte, j: nat)
    requires j <= 8
    requires forall i :: 0 <= i < j ==> ByteBit(x, i) == ByteBit(y, i)
    ensures Shr(x, 8 - j) == Shr(y, 8 - j)
  {
    if j == 0 {
      ShrByte(x);
      ShrByte(y);
    } else {
      ByteTop(x, y, j - 1);
      ShrHalf(x, 8 - j);
      ShrHalf(y, 8 - j);
      assert ByteBit(x, j - 1) == ByteBit(y, j - 1);
    }
  }

  lemma ByteLess(x: Byte, y: Byte, j: nat)
    requires j < 8
    requires forall i :: 0 <= i < j ==> ByteBit(x, i) == ByteBit(y, i)
    requires ByteBit(x, j) == 0 && ByteBit(y, j) == 1
    ensures x < y
  {
    ByteTop(x, y, j);
    ShrHalf(x, 7 - j);
    ShrHalf(y, 7 - j);
    ShrOrder(x, y, 7 - j);
  }

  lemma XorBitAt(a: Id, b: Id, k: nat)
    requires |a| == |b| && k < 8 * |a|
    ensures BitAt(XorId(a, b), k) == if BitAt(a, k) == BitAt(b, k) then 0 else 1
  {
    var i, j := k / 8, k % 8;
    XorBit(a[i], b[i], 8, 7 - j);
    assert XorId(a, b)[i] == XorBits(a[i], b[i], 8);
  }

  // ---------- ids ----------

  /** Ids agree on every bit before `k`. */
  ghost predicate AgreeBefore(a: Id, b: Id, k: nat)
    requires |a| == |b| && k <= 8 * |a|
  {
    forall i :: 0 <= i < k ==> BitAt(a, i) == BitAt(b, i)
  }

  /** The common prefix length is the position of the first bit where the ids differ. */
  lemma CommonPrefixMeaning(a: Id, b: Id)
    requires |a| == |b|
    ensures CommonPrefixLen(a, b) <= 8 * |a|
    ensures AgreeBefore(a, b, CommonPrefixLen(a, b))
    ensures CommonPrefixLen(a, b) < 8 * |a|
            ==> BitAt(a, CommonPrefixLen(a, b)) != BitAt(b, CommonPrefixLen(a, b))
    ensures CommonPrefixLen(a, b) == 8 * |a| <==> a == b
  {
    var x := XorId(a, b);
    forall k | 0 <= k < 8 * |a|
      ensures BitAt(x, k) == 0 <==> BitAt(a, k) == BitAt(b, k)
    {
      XorBitAt(a, b, k);
    }
    if CommonPrefixLen(a, b) == 8 * |a| {
      SameBits(a, b, |a|);
    }
  }

  lemma SameBits(a: Id, b: Id, n: nat)
    requires |a| == |b| && n <= |a| && AgreeBefore(a, b, 8 * n)
    ensures a[..n] == b[..n]
  {
    forall i | 0 <= i < n
      ensures a[i] == b[i]
    {
      ByteBits(a, b, i, 8);
      ByteTop(a[i], b[i], 8);
    }
  }

  lemma ByteBits(a: Id, b: Id, i: nat, n: nat)
    requires |a| == |b| && i < |a| && n <= 8 && AgreeBefore(a, b, 8 * i + n)
    ensures forall j :: 0 <= j < n ==> ByteBit(a[i], j) == ByteBit(b[i], j)
  {
    forall j | 0 <= j < n
      ensures ByteBit(a[i], j) == ByteBit(b[i], j)
    {
      assert (8 * i + j) / 8 == i && (8 * i + j) % 8 == j;
      assert BitAt(a, 8 * i + j) == BitAt(b, 8 * i + j);
    }
  }

  lemma {:induction false} BigEndianLess(x: Id, y: Id, i: nat)
    requires |x| == |y| && i < |x| && x[..i] == y[..i] && x[i] < y[i]
    ensures BigEndian(x) < BigEndian(y)
  {
    var n := |x| - 1;
    if i == n {
      assert x[..n] == y[..n];
    } else {
      assert x[..n][..i] == x[..i] && y[..n][..i] == y[..i];
      BigEndianLess(x[..n], y[..n], i);
    }
  }

  /** Of two ids the nearer to `t` is the one with `t`'s bit where the two first differ. */
  lemma NearerByFirstDifference(p: Id, q: Id, t: Id, k: nat)
    requires |p| == |q| == |t| && k < 8 * |p|
    requires AgreeBefore(p, q, k) && BitAt(p, k) != BitAt(q, k)
    ensures Distance(p, t) < Distance(q, t) <==> BitAt(p, k) == BitAt(t, k)
    ensures Distance(p, t) != Distance(q, t)
  {
    if BitAt(p, k) == BitAt(t, k) {
      NearerAtBit(p, q, t, k);
    } else {
      NearerAtBit(q, p, t, k);
    }
  }

  lemma NearerAtBit(p: Id, q: Id, t: Id, k: nat)
    requires |p| == |q| == |t| && k < 8 * |p|
    requires AgreeBefore(p, q, k) && BitAt(p, k) != BitAt(q, k)
    requires BitAt(p, k) == BitAt(t, k)
    ensures Distance(p, t) < Distance(q, t)
  {
    var x, y, i, j := XorId(p, t), XorId(q, t), k / 8, k % 8;
    SameBits(p, q, i);
    assert forall m :: 0 <= m < i ==> p[m] == p[..i][m] == q[..i][m] == q[m];
    assert x[..i] == y[..i];
    forall m | 0 <= m <= k
      ensures BitAt(x, m) == if BitAt(p, m) == BitAt(t, m) then 0 else 1
      ensures BitAt(y, m) == if BitAt(q, m) == BitAt(t, m) then 0 else 1
    {
      XorBitAt(p, t, m);
      XorBitAt(q, t, m);
    }
    assert AgreeBefore(x, y, k);
    ByteBits(x, y, i, j);
    assert BitAt(x, k) == 0 && BitAt(y, k) == 1;
    ByteLess(x[i], y[i], j);
    BigEndianLess(x, y, i);
  }

  /** The distance to a fixed id tells ids apart, and only the id itself is at distance 0. */
  lemma DistanceInjective(p: Id, q: Id, t: Id)
    requires |p| == |q| == |t| && p != q
    ensures Distance(p, t) != Distance(q, t)
  {
    CommonPrefixMeaning(p, q);
    NearerByFirstDifference(p, q, t, CommonPrefixLen(p, q));
  }

  lemma {:induction false} ZeroDistance(t: Id)
    ensures Distance(t, t) == 0
  {
    forall i | 0 <= i < |t|
      ensures XorId(t, t)[i] == 0
    {
      XorSelf(t[i], 8);
    }
    ZeroBigEndian(XorId(t, t));
  }

  lemma {:induction false} XorSelf(a: nat, n: nat)
    ensures XorBits(a, a, n) == 0
  {
    if n > 0 { XorSelf(a / 2, n - 1); }
  }

  lemma {:induction false} ZeroBigEndian(s: Id)
    requires forall i :: 0 <= i < |s| ==> s[i] == 0
    ensures BigEndian(s) == 0
  {
    if s != [] { ZeroBigEndian(s[..|s| - 1]); }
  }
}
