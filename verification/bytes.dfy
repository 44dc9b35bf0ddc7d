/** Little-endian byte and limb arithmetic underneath the bignum codec.

    A limb (`mbedtls_mpi_uint`) is 32 bits wide on this target, so ciL, the
    number of bytes in a limb, is 4. The staging arrays handed to the
    accelerator are arrays of 32-bit `unsigned int` words; they share the limb
    type, and since the core is little-endian their byte view is `LeBytes`. */
module Bytes {

  /** ciL: bytes per limb. */
  const CIL: nat := 4

  type Byte = b: int | 0 <= b < 0x100
  type Limb = l: int | 0 <= l < 0x1_0000_0000

  /** `b << (j * 8)` for a byte b moved to byte position j of a limb. */
  function ShiftByte(b: Byte, j: nat): nat
    requires j < CIL
  {
    if j == 0 then b
    else if j == 1 then 0x100 * b
    else if j == 2 then 0x1_0000 * b
    else 0x100_0000 * b
  }

  /** Byte j of limb v, `(v >> (j * 8)) & 0xff`. */
  function LimbByte(v: Limb, j: nat): Byte
    requires j < CIL
  {
    if j == 0 then v % 0x100
    else if j == 1 then (v / 0x100) % 0x100
    else if j == 2 then (v / 0x1_0000) % 0x100
    else (v / 0x100_0000) % 0x100
  }

  /** The limb whose bytes, least significant first, are b0, b1, b2, b3. */
  function Pack(b0: Byte, b1: Byte, b2: Byte, b3: Byte): Limb
  {
    b0 + 0x100 * b1 + 0x1_0000 * b2 + 0x100_0000 * b3
  }

  /** GET_BYTE(X, i): byte i of a limb array (ecp_alt_b91_backend.c does no
      range check; here i must lie among the stored bytes). */
  function GetByte(limbs: seq<Limb>, i: nat): Byte
    requires i < |limbs| * CIL
  {
    LimbByte(limbs[i / CIL], i % CIL)
  }

  /** CHARS_TO_LIMBS(n): the number of limbs that hold n bytes, rounded up. */
  function CharsToLimbs(n: nat): (r: nat)
    ensures n <= r * CIL < n + CIL
  {
    n / CIL + (if n % CIL != 0 then 1 else 0)
  }

  function Max(a: int, b: int): int
  {
    if a < b then b else a
  }

  lemma CharsToLimbsOfWords(n: nat)
    ensures CharsToLimbs(CIL * n) == n
  {
    var r := CharsToLimbs(CIL * n);
    assert CIL * n <= r * CIL < CIL * n + CIL;
  }

  /** The bytes of a limb array as they lie in little-endian memory: the
      stored bytes of an mpi, or the `(unsigned char *)` view of a word array. */
  function LeBytes(limbs: seq<Limb>): seq<Byte>
  {
    seq(|limbs| * CIL, i requires 0 <= i < |limbs| * CIL => GetByte(limbs, i))
  }

  /** Byte k of b, or 0 past its end. */
  function ByteOrZero(b: seq<Byte>, k: nat): Byte
  {
    if k < |b| then b[k] else 0
  }

  /** Reference packing of a byte string into limbs, least significant first,
      the last limb zero-padded. */
  function LimbsOfBytes(b: seq<Byte>): seq<Limb>
  {
    seq(CharsToLimbs(|b|), q requires 0 <= q =>
      Pack(ByteOrZero(b, CIL * q), ByteOrZero(b, CIL * q + 1),
           ByteOrZero(b, CIL * q + 2), ByteOrZero(b, CIL * q + 3)))
  }

  /** s truncated or padded with `pad` to exactly n elements. */
  function Fit<T>(s: seq<T>, n: nat, pad: T): (r: seq<T>)
    ensures |r| == n
    ensures forall i | 0 <= i < n :: r[i] == if i < |s| then s[i] else pad
  {
    if n <= |s| then s[..n] else s + seq(n - |s|, _ => pad)
  }

  function Pow256(k: nat): (r: nat)
    ensures r >= 1
  {
    if k == 0 then 1 else 0x100 * Pow256(k - 1)
  }

  /** The number a little-endian byte string denotes. */
  function BytesValue(b: seq<Byte>): nat
  {
    if |b| == 0 then 0 else b[0] + 0x100 * BytesValue(b[1..])
  }

  /** The number a little-endian limb array denotes. */
  function LimbsValue(l: seq<Limb>): nat
  {
    if |l| == 0 then 0 else l[0] + 0x1_0000_0000 * LimbsValue(l[1..])
  }

  // ---------------------------------------------------------------------
  // One limb and its four bytes

  lemma PackBytes(b0: Byte, b1: Byte, b2: Byte, b3: Byte)
    ensures LimbByte(Pack(b0, b1, b2, b3), 0) == b0
    ensures LimbByte(Pack(b0, b1, b2, b3), 1) == b1
    ensures LimbByte(Pack(b0, b1, b2, b3), 2) == b2
    ensures LimbByte(Pack(b0, b1, b2, b3), 3) == b3
  {
    var v := Pack(b0, b1, b2, b3);
    var t2: int := b2 + 0x100 * b3;
    var t1: int := b1 + 0x100 * t2;
    assert v == b0 + 0x100 * t1;
    Split8(b0, t1);
    Split8(b1, t2);
    Split8(b2, b3);
    Split8(b3, 0);
    Split16(b0 + 0x100 * b1, t2);
    Split24(b0 + 0x100 * b1 + 0x1_0000 * b2, b3);
  }

  /** Division by 2^8, 2^16 and 2^24 splits lo + 2^k * hi into hi and lo. */
  lemma Split8(lo: int, hi: int)
    requires 0 <= lo < 0x100
    ensures (lo + 0x100 * hi) / 0x100 == hi && (lo + 0x100 * hi) % 0x100 == lo
  {
  }

  lemma Split16(lo: int, hi: int)
    requires 0 <= lo < 0x1_0000
    ensures (lo + 0x1_0000 * hi) / 0x1_0000 == hi
  {
  }

  lemma Split24(lo: int, hi: int)
    requires 0 <= lo < 0x100_0000
    ensures (lo + 0x100_0000 * hi) / 0x100_0000 == hi
  {
  }

  lemma UnpackLimb(v: Limb)
    ensures Pack(LimbByte(v, 0), LimbByte(v, 1), LimbByte(v, 2), LimbByte(v, 3)) == v
  {
    var q1 := v / 0x100;
    var q2 := q1 / 0x100;
    var q3 := q2 / 0x100;
    assert v == v % 0x100 + 0x100 * q1;
    assert q1 == q1 % 0x100 + 0x100 * q2;
    assert q2 == q2 % 0x100 + 0x100 * q3;
    var lo16 := v % 0x100 + 0x100 * (q1 % 0x100);
    assert v == lo16 + 0x1_0000 * q2;
    Split16(lo16, q2);
    var lo24 := lo16 + 0x1_0000 * (q2 % 0x100);
    assert v == lo24 + 0x100_0000 * q3;
    Split24(lo24, q3);
    assert q3 % 0x100 == q3;
  }

  /** The four bytes of a limb denote the limb. */
  lemma LimbBytesValue(v: Limb)
    ensures BytesValue(LeBytes([v])) == v
  {
    var s := LeBytes([v]);
    assert s == [LimbByte(v, 0), LimbByte(v, 1), LimbByte(v, 2), LimbByte(v, 3)];
    var b0: int, b1: int, b2: int, b3: int := LimbByte(v, 0), LimbByte(v, 1), LimbByte(v, 2), LimbByte(v, 3);
    assert BytesValue([b3]) == b3 by {
      assert [b3][1..] == [];
    }
    assert BytesValue([b2, b3]) == b2 + 0x100 * b3 by {
      assert [b2, b3][1..] == [b3];
    }
    assert BytesValue([b1, b2, b3]) == b1 + 0x100 * (b2 + 0x100 * b3) by {
      assert [b1, b2, b3][1..] == [b2, b3];
    }
    assert BytesValue(s) == b0 + 0x100 * (b1 + 0x100 * (b2 + 0x100 * b3)) by {
      assert s[1..] == [b1, b2, b3];
    }
    UnpackLimb(v);
  }

  // ---------------------------------------------------------------------
  // Values of byte strings

  lemma {:induction false} BytesValueAppend(a: seq<Byte>, b: seq<Byte>)
    ensures BytesValue(a + b) == BytesValue(a) + Pow256(|a|) * BytesValue(b)
    decreases |a|
  {
    if |a| == 0 {
      assert a + b == b;
    } else {
      var c, t := a + b, a[1..] + b;
      assert c[0] == a[0] && c[1..] == t;
      BytesValueAppend(a[1..], b);
      var p, v, w := Pow256(|a[1..]|), BytesValue(a[1..]), BytesValue(b);
      var m := p * w;
      assert BytesValue(t) == v + m;
      assert BytesValue(c) == c[0] + 0x100 * BytesValue(c[1..]);
      ShiftProduct(p, w);
    }
  }

  lemma ShiftProduct(p: int, w: int)
    ensures (0x100 * p) * w == 0x100 * (p * w)
  {
  }

  /** k bytes denote a number below 256^k. */
  lemma {:induction false} BytesValueBound(b: seq<Byte>)
    ensures BytesValue(b) < Pow256(|b|)
    decreases |b|
  {
    if |b| > 0 {
      BytesValueBound(b[1..]);
      assert BytesValue(b[1..]) + 1 <= Pow256(|b| - 1);
      assert 0x100 * (BytesValue(b[1..]) + 1) <= 0x100 * Pow256(|b| - 1);
    }
  }

  /** A byte string denotes zero exactly when all of its bytes are zero. */
  lemma {:induction false} BytesValueZero(b: seq<Byte>)
    ensures BytesValue(b) == 0 <==> forall i | 0 <= i < |b| :: b[i] == 0
    decreases |b|
  {
    if |b| > 0 {
      BytesValueZero(b[1..]);
      if forall i | 0 <= i < |b| :: b[i] == 0 {
        assert forall i | 0 <= i < |b| - 1 :: b[1..][i] == b[i + 1];
      } else {
        var k :| 0 <= k < |b| && b[k] != 0;
        if k > 0 {
          assert b[1..][k - 1] != 0;
        }
      }
    }
  }

  lemma {:induction false} Pow256Monotonic(m: nat, n: nat)
    requires m <= n
    ensures Pow256(m) <= Pow256(n)
    decreases n
  {
    if m < n {
      Pow256Monotonic(m, n - 1);
    }
  }

  /** Zero padding does not change the denoted number. */
  lemma BytesValuePad(b: seq<Byte>, n: nat)
    requires |b| <= n
    ensures BytesValue(Fit(b, n, 0)) == BytesValue(b)
  {
    if n == |b| {
      assert Fit(b, n, 0) == b[..n] == b;
    } else {
      var z: seq<Byte> := seq(n - |b|, _ => 0);
      assert Fit(b, n, 0) == b + z;
      BytesValueAppendZeros(b, z);
    }
  }

  /** Zero bytes appended at the top do not change the value. */
  lemma BytesValueAppendZeros(b: seq<Byte>, z: seq<Byte>)
    requires forall i | 0 <= i < |z| :: z[i] == 0
    ensures BytesValue(b + z) == BytesValue(b)
  {
    BytesValueAppend(b, z);
    BytesValueZero(z);
    MulZero(Pow256(|b|), BytesValue(z));
  }

  lemma MulZero(p: int, w: int)
    requires w == 0
    ensures p * w == 0
  {
  }

  // ---------------------------------------------------------------------
  // Limbs and their byte view

  lemma LeBytesCons(l: seq<Limb>)
    requires |l| > 0
    ensures LeBytes(l) == LeBytes([l[0]]) + LeBytes(l[1..])
  {
    var lhs := LeBytes(l);
    var rhs := LeBytes([l[0]]) + LeBytes(l[1..]);
    assert |lhs| == |rhs|;
    forall i | 0 <= i < |lhs|
      ensures lhs[i] == rhs[i]
    {
      if i >= CIL {
        assert (i - CIL) / CIL == i / CIL - 1;
        assert (i - CIL) % CIL == i % CIL;
      }
    }
  }

  /** The byte view of a limb array denotes the same number as the limbs. */
  lemma {:induction false} LeBytesValue(l: seq<Limb>)
    ensures BytesValue(LeBytes(l)) == LimbsValue(l)
    decreases |l|
  {
    if |l| == 0 {
      assert LeBytes(l) == [];
    } else {
      LeBytesCons(l);
      LeBytesValue(l[1..]);
      BytesValueAppend(LeBytes([l[0]]), LeBytes(l[1..]));
      LimbBytesValue(l[0]);
      assert Pow256(4) == 0x1_0000_0000;
    }
  }

  /** Packing a byte string and viewing the limbs as bytes gives the string
      back, zero-padded to a whole number of limbs. */
  lemma LeBytesOfLimbsOfBytes(b: seq<Byte>)
    ensures LeBytes(LimbsOfBytes(b)) == Fit(b, CharsToLimbs(|b|) * CIL, 0)
  {
    var l := LimbsOfBytes(b);
    var lhs := LeBytes(l);
    var rhs := Fit(b, CharsToLimbs(|b|) * CIL, 0);
    assert |lhs| == |rhs|;
    forall i | 0 <= i < |lhs|
      ensures lhs[i] == rhs[i]
    {
      var q, j := i / CIL, i % CIL;
      assert i == CIL * q + j;
      GetByteAt(l, q, j);
      PackedByte(b, q, j);
    }
  }

  /** Packed limb q is made of bytes 4q to 4q + 3. */
  lemma PackedLimb(b: seq<Byte>, q: nat)
    requires q < CharsToLimbs(|b|)
    ensures LimbsOfBytes(b)[q] == Pack(ByteOrZero(b, CIL * q), ByteOrZero(b, CIL * q + 1),
                                       ByteOrZero(b, CIL * q + 2), ByteOrZero(b, CIL * q + 3))
  {
  }

  /** Byte j of packed limb q is byte 4q + j of the string, or 0 past its end. */
  lemma PackedByte(b: seq<Byte>, q: nat, j: nat)
    requires q < CharsToLimbs(|b|) && j < CIL
    ensures LimbByte(LimbsOfBytes(b)[q], j) == ByteOrZero(b, CIL * q + j)
  {
    var c0, c1, c2, c3 := ByteOrZero(b, CIL * q), ByteOrZero(b, CIL * q + 1),
                          ByteOrZero(b, CIL * q + 2), ByteOrZero(b, CIL * q + 3);
    assert LimbsOfBytes(b)[q] == Pack(c0, c1, c2, c3);
    PackBytes(c0, c1, c2, c3);
    if j == 0 {
      assert CIL * q + j == CIL * q;
    } else if j == 1 {
      assert LimbByte(Pack(c0, c1, c2, c3), j) == c1;
    } else if j == 2 {
      assert LimbByte(Pack(c0, c1, c2, c3), j) == c2;
    } else {
      assert LimbByte(Pack(c0, c1, c2, c3), j) == c3;
    }
  }

  /** Byte j of limb q sits at index 4q + j of the byte view. */
  lemma GetByteAt(l: seq<Limb>, q: nat, j: nat)
    requires q < |l| && j < CIL
    ensures CIL * q + j < |l| * CIL
    ensures GetByte(l, CIL * q + j) == LimbByte(l[q], j)
  {
    var k := CIL * q + j;
    assert k / CIL == q && k % CIL == j;
  }

  lemma LimbOfLeBytes(l: seq<Limb>, q: nat)
    requires q < |l|
    ensures LimbsOfBytes(LeBytes(l))[q] == l[q]
  {
    var b := LeBytes(l);
    var k := CIL * q;
    var v := l[q];
    CharsToLimbsOfWords(|l|);
    assert |b| == CIL * |l|;
    GetByteAt(l, q, 0);
    GetByteAt(l, q, 1);
    GetByteAt(l, q, 2);
    GetByteAt(l, q, 3);
    var c0, c1, c2, c3 := ByteOrZero(b, k), ByteOrZero(b, k + 1), ByteOrZero(b, k + 2), ByteOrZero(b, k + 3);
    PackedLimb(b, q);
    assert c0 == LimbByte(v, 0) && c1 == LimbByte(v, 1) && c2 == LimbByte(v, 2) && c3 == LimbByte(v, 3);
    UnpackLimb(v);
  }

  /** Viewing limbs as bytes and packing the bytes gives the limbs back. */
  lemma LimbsOfLeBytes(l: seq<Limb>)
    ensures LimbsOfBytes(LeBytes(l)) == l
  {
    var b := LeBytes(l);
    var r := LimbsOfBytes(b);
    assert |r| == |l|;
    forall q | 0 <= q < |l|
      ensures r[q] == l[q]
    {
      LimbOfLeBytes(l, q);
    }
  }

  /** Distinct limb arrays have distinct byte views. */
  lemma LeBytesInjective(l1: seq<Limb>, l2: seq<Limb>)
    requires LeBytes(l1) == LeBytes(l2)
    ensures l1 == l2
  {
    LimbsOfLeBytes(l1);
    LimbsOfLeBytes(l2);
  }

  /** Packed limbs denote the same number as the bytes they were packed from. */
  lemma LimbsOfBytesValue(b: seq<Byte>)
    ensures LimbsValue(LimbsOfBytes(b)) == BytesValue(b)
  {
    LeBytesValue(LimbsOfBytes(b));
    LeBytesOfLimbsOfBytes(b);
    BytesValuePad(b, CharsToLimbs(|b|) * CIL);
  }
}
