/** The little-endian codec between an mbedtls big integer and a fixed-width
    byte buffer: mbedtls_mpi_write_binary_le, mbedtls_mpi_read_binary_le and
    the mbedtls_mpi_lset calls the bridge makes on its output point. */
module Codec {
  import opened Errors
  import opened Bytes

  /** An mbedtls_mpi as this core sees it: its limb array `p`, whose length is
      the limb count `n`, least significant limb first. mbedtls keeps
      `p == NULL` exactly when `n == 0`, so the mpi without limbs is the unset
      one. */
  datatype Mpi = Mpi(limbs: seq<Limb>)

  /** `X.p == NULL` */
  predicate Unset(x: Mpi)
  {
    |x.limbs| == 0
  }

  function MpiValue(x: Mpi): nat
  {
    LimbsValue(x.limbs)
  }

  /** Every stored byte of x at index buflen or above is zero. */
  predicate FitsIn(x: Mpi, buflen: nat)
  {
    forall i | buflen <= i < |x.limbs| * CIL :: GetByte(x.limbs, i) == 0
  }

  /** Whether read_binary_le allocates: it re-grows X when X has the wrong
      number of limbs, and lset grows X to one limb when zero limbs are wanted. */
  predicate ReadAllocates(x: Mpi, buflen: nat)
  {
    |x.limbs| != CharsToLimbs(buflen) || buflen == 0
  }

  /** The limb count read_binary_le leaves: CHARS_TO_LIMBS(buflen), except
      that an empty buffer still leaves the one limb lset grows to. */
  function ReadLimbCount(buflen: nat): nat
  {
    Max(CharsToLimbs(buflen), 1)
  }

  /** What a successful read leaves in X: `buf`, zero-padded to whole limbs. */
  predicate ReadResult(buf: seq<Byte>, x: Mpi)
  {
    && |x.limbs| == ReadLimbCount(|buf|)
    && LeBytes(x.limbs) == Fit(buf, |x.limbs| * CIL, 0)
  }

  /** mbedtls_mpi_write_binary_le(X, buf, buflen), with buflen == |buf| and
      the prior contents of the caller's buffer passed in. */
  method WriteBinaryLe(x: Mpi, buf: seq<Byte>) returns (ret: Status, out: seq<Byte>)
    ensures ret == Ok || ret == MpiBufferTooSmall
    ensures ret == MpiBufferTooSmall <==> !FitsIn(x, |buf|)
    ensures ret == MpiBufferTooSmall ==> out == buf
    ensures ret == Ok ==> out == Fit(LeBytes(x.limbs), |buf|, 0)
  {
    var storedBytes := |x.limbs| * CIL;
    var bytesToCopy: nat;
    if storedBytes < |buf| {
      bytesToCopy := storedBytes;
    } else {
      bytesToCopy := |buf|;
      // The buffer is shorter than X's storage: X still fits if its leading
      // bytes are zero.
      var i := bytesToCopy;
      while i < storedBytes
        invariant bytesToCopy <= i <= storedBytes
        invariant forall k | bytesToCopy <= k < i :: GetByte(x.limbs, k) == 0
      {
        if GetByte(x.limbs, i) != 0 {
          return MpiBufferTooSmall, buf;
        }
        i := i + 1;
      }
    }
    out := buf;
    var i := 0;
    while i < bytesToCopy
      invariant 0 <= i <= bytesToCopy
      invariant |out| == |buf|
      invariant forall k | 0 <= k < i :: out[k] == GetByte(x.limbs, k)
    {
      out := out[i := GetByte(x.limbs, i)];
      i := i + 1;
    }
    if storedBytes < |buf| {
      // trailing zero bytes
      out := out[..storedBytes] + seq(|buf| - storedBytes, _ => 0);
    }
    ret := Ok;
  }

  /** mbedtls_mpi_lset(X, z) for a small non-negative z. It grows X to at
      least one limb, which allocates exactly when X has none; allocOk says
      whether the allocator grants that request. */
  function Lset(x: Mpi, z: Limb, allocOk: bool): (r: (Status, Mpi))
    ensures r.0 == Ok || r.0 == MpiAllocFailed
    ensures r.0 == MpiAllocFailed <==> Unset(x) && !allocOk
    ensures r.0 == MpiAllocFailed ==> r.1 == x
    ensures r.0 == Ok ==> MpiValue(r.1) == z
    ensures r.0 == Ok ==> |r.1.limbs| == Max(|x.limbs|, 1)
    ensures r.0 == Ok ==> forall k | 1 <= k < |r.1.limbs| :: r.1.limbs[k] == 0
  {
    if Unset(x) && !allocOk then
      (MpiAllocFailed, x)
    else
      var zeros: seq<Limb> := seq(Max(|x.limbs|, 1) - 1, _ => 0);
      LimbsValueZeros(zeros);
      assert ([z] + zeros)[1..] == zeros;
      (Ok, Mpi([z] + zeros))
  }

  lemma {:induction false} LimbsValueZeros(l: seq<Limb>)
    requires forall k | 0 <= k < |l| :: l[k] == 0
    ensures LimbsValue(l) == 0
    decreases |l|
  {
    if |l| > 0 {
      LimbsValueZeros(l[1..]);
    }
  }

  /** mbedtls_mpi_read_binary_le(X, buf, buflen), with buflen == |buf|.
      allocOk says whether the one allocation it may make is granted (an
      oversized request, refused by mbedtls_mpi_grow, counts as refused). */
  method ReadBinaryLe(x: Mpi, buf: seq<Byte>, allocOk: bool) returns (ret: Status, x': Mpi)
    ensures ret == Ok || ret == MpiAllocFailed
    ensures ret == MpiAllocFailed <==> ReadAllocates(x, |buf|) && !allocOk
    ensures ret == MpiAllocFailed ==> x' == Mpi([])
    ensures ret == Ok ==> ReadResult(buf, x')
  {
    var limbs := CharsToLimbs(|buf|);
    var cur := x;
    if |cur.limbs| != limbs {
      cur := Mpi([]);  // mbedtls_mpi_free, then mbedtls_mpi_init
      if limbs > 0 {   // mbedtls_mpi_grow(X, limbs)
        if !allocOk {
          return MpiAllocFailed, cur;
        }
        cur := Mpi(seq(limbs, _ => 0));
      }
    }
    var cleared := Lset(cur, 0, allocOk);
    if cleared.0 != Ok {
      return cleared.0, cleared.1;
    }
    var l: seq<Limb> := cleared.1.limbs;
    ReadStart(buf, l);
    l := ReadBytes(buf, l);
    x' := Mpi(l);
    ret := Ok;
    ReadComplete(buf, l);
  }

  /** A cleared X of the right size holds none of buf's bytes yet. */
  lemma ReadStart(buf: seq<Byte>, l: seq<Limb>)
    requires |l| == ReadLimbCount(|buf|)
    requires forall q | 0 <= q < |l| :: l[q] == 0
    ensures ReadSoFarIn(buf, 0, l)
  {
    assert forall q | 0 <= q < |l| :: l[q] == 0 == LimbSoFar(buf, 0, q);
  }

  /** The read loop over a cleared X: every byte of buf lands in its limb. */
  method ReadBytes(buf: seq<Byte>, l0: seq<Limb>) returns (l: seq<Limb>)
    requires ReadSoFarIn(buf, 0, l0)
    ensures ReadSoFarIn(buf, |buf|, l)
  {
    l := l0;
    var i := 0;
    while i < |buf|
      invariant 0 <= i <= |buf|
      invariant ReadSoFarIn(buf, i, l)
    {
      l := ReadInto(buf, i, l);
      i := i + 1;
    }
  }

  /** Byte k of X's byte view once the first i bytes of buf are read in. */
  function ReadSoFar(buf: seq<Byte>, i: nat, k: nat): Byte
  {
    if k < i && k < |buf| then buf[k] else 0
  }

  /** Limb q of X once the first i bytes of buf are read in. */
  function LimbSoFar(buf: seq<Byte>, i: nat, q: nat): Limb
  {
    Pack(ReadSoFar(buf, i, CIL * q), ReadSoFar(buf, i, CIL * q + 1),
         ReadSoFar(buf, i, CIL * q + 2), ReadSoFar(buf, i, CIL * q + 3))
  }

  /** X's limbs l hold the first i bytes of buf and zeros above them. */
  predicate ReadSoFarIn(buf: seq<Byte>, i: nat, l: seq<Limb>)
  {
    && |l| == ReadLimbCount(|buf|)
    && forall q | 0 <= q < |l| :: l[q] == LimbSoFar(buf, i, q)
  }

  /** One pass of the read loop, `X->p[i / ciL] |= buf[i] << ((i % ciL) << 3)`
      on a byte that is still zero: it keeps X's limbs equal to the bytes read
      so far. */
  function ReadInto(buf: seq<Byte>, i: nat, l: seq<Limb>): (r: seq<Limb>)
    requires i < |buf| && ReadSoFarIn(buf, i, l)
    ensures ReadSoFarIn(buf, i + 1, r)
  {
    var p := i / CIL;
    assert p * CIL <= i < |buf| <= CharsToLimbs(|buf|) * CIL;
    ReadStep(buf, i);
    var r := l[p := LimbSoFar(buf, i + 1, p)];
    assert forall q | 0 <= q < |l| && q != p :: r[q] == l[q];
    assert l[p] + ShiftByte(buf[i], i % CIL) == LimbSoFar(buf, i + 1, p);
    l[p := l[p] + ShiftByte(buf[i], i % CIL)]
  }

  /** Reading byte i = 4q + j in adds it, shifted to position j, to limb q. */
  lemma ReadStepAt(buf: seq<Byte>, i: nat, q: nat, j: nat)
    requires i < |buf| && j < CIL && i == CIL * q + j
    ensures LimbSoFar(buf, i, q) + ShiftByte(buf[i], j) == LimbSoFar(buf, i + 1, q)
  {
    var k := CIL * q;
    assert k + j == i;
    var c0, c1, c2, c3 := ReadSoFar(buf, i, k), ReadSoFar(buf, i, k + 1), ReadSoFar(buf, i, k + 2), ReadSoFar(buf, i, k + 3);
    var d0, d1, d2, d3 := ReadSoFar(buf, i + 1, k), ReadSoFar(buf, i + 1, k + 1),
                          ReadSoFar(buf, i + 1, k + 2), ReadSoFar(buf, i + 1, k + 3);
    ReadSoFarNext(buf, i, k);
    ReadSoFarNext(buf, i, k + 1);
    ReadSoFarNext(buf, i, k + 2);
    ReadSoFarNext(buf, i, k + 3);
    PackAdd(c0, c1, c2, c3, d0, d1, d2, d3, buf[i], j);
    assert LimbSoFar(buf, i, q) == Pack(c0, c1, c2, c3);
    assert LimbSoFar(buf, i + 1, q) == Pack(d0, d1, d2, d3);
  }

  /** Reading byte i in sets byte i of X's byte view and no other; bytes
      from i on are still zero before. */
  lemma ReadSoFarNext(buf: seq<Byte>, i: nat, k: nat)
    requires i < |buf|
    ensures ReadSoFar(buf, i + 1, k) == if k == i then buf[i] else ReadSoFar(buf, i, k)
    ensures k >= i ==> ReadSoFar(buf, i, k) == 0
  {
  }

  /** Filling the zero byte j of a limb with b adds b shifted to position j. */
  lemma PackAdd(c0: Byte, c1: Byte, c2: Byte, c3: Byte, d0: Byte, d1: Byte, d2: Byte, d3: Byte, b: Byte, j: nat)
    requires j < CIL
    requires d0 == (if j == 0 then b else c0) && d1 == (if j == 1 then b else c1)
    requires d2 == (if j == 2 then b else c2) && d3 == (if j == 3 then b else c3)
    requires (j == 0 ==> c0 == 0) && (j == 1 ==> c1 == 0) && (j == 2 ==> c2 == 0) && (j == 3 ==> c3 == 0)
    ensures Pack(c0, c1, c2, c3) + ShiftByte(b, j) == Pack(d0, d1, d2, d3)
  {
  }

  /** Reading byte i in adds it, shifted, to limb i / 4 and leaves the
      other limbs alone. */
  lemma ReadStep(buf: seq<Byte>, i: nat)
    requires i < |buf|
    ensures LimbSoFar(buf, i, i / CIL) + ShiftByte(buf[i], i % CIL) == LimbSoFar(buf, i + 1, i / CIL)
    ensures forall q: nat | q != i / CIL :: LimbSoFar(buf, i + 1, q) == LimbSoFar(buf, i, q)
  {
    var q, j := i / CIL, i % CIL;
    ReadStepAt(buf, i, q, j);
    forall q': nat | q' != q
      ensures LimbSoFar(buf, i + 1, q') == LimbSoFar(buf, i, q')
    {
      assert i < CIL * q' || CIL * q' + CIL <= i;
    }
  }

  /** Once every byte is read in, X's byte view is buf, zero-padded. */
  lemma ReadComplete(buf: seq<Byte>, l: seq<Limb>)
    requires ReadSoFarIn(buf, |buf|, l)
    ensures LeBytes(l) == Fit(buf, |l| * CIL, 0)
  {
    var s := Fit(buf, |l| * CIL, 0);
    CharsToLimbsOfWords(|l|);
    assert CIL * |l| == |l| * CIL;
    forall q | 0 <= q < |l|
      ensures LimbsOfBytes(s)[q] == l[q]
    {
      PaddedByte(buf, |l| * CIL, CIL * q);
      PaddedByte(buf, |l| * CIL, CIL * q + 1);
      PaddedByte(buf, |l| * CIL, CIL * q + 2);
      PaddedByte(buf, |l| * CIL, CIL * q + 3);
    }
    assert LimbsOfBytes(s) == l;
    LeBytesOfLimbsOfBytes(s);
    assert Fit(s, |l| * CIL, 0) == s;
  }

  lemma PaddedByte(buf: seq<Byte>, n: nat, k: nat)
    requires k < n
    ensures ByteOrZero(Fit(buf, n, 0), k) == ReadSoFar(buf, |buf|, k)
  {
  }

  // ---------------------------------------------------------------------
  // Meaning of the codec

  /** A write succeeds exactly when the integer is below 256^buflen. */
  lemma FitsInIffBelow(x: Mpi, buflen: nat)
    ensures FitsIn(x, buflen) <==> MpiValue(x) < Pow256(buflen)
  {
    var s := LeBytes(x.limbs);
    LeBytesValue(x.limbs);
    if buflen >= |s| {
      BytesValueBound(s);
      Pow256Monotonic(|s|, buflen);
    } else {
      SplitValue(s, buflen);
      FitsInHigh(x, buflen);
      BytesValueZero(s[buflen..]);
      BelowIffHighZero(BytesValue(s[..buflen]), BytesValue(s[buflen..]), Pow256(buflen));
    }
  }

  lemma BelowIffHighZero(lo: nat, hi: nat, p: nat)
    requires lo < p
    ensures lo + p * hi < p <==> hi == 0
  {
    if hi > 0 {
      assert p * hi == p * (hi - 1) + p;
    }
  }

  /** Splitting a byte string at n: the low part stays below 256^n. */
  lemma SplitValue(s: seq<Byte>, n: nat)
    requires n <= |s|
    ensures BytesValue(s) == BytesValue(s[..n]) + Pow256(n) * BytesValue(s[n..])
    ensures BytesValue(s[..n]) < Pow256(n)
  {
    assert s == s[..n] + s[n..];
    BytesValueAppend(s[..n], s[n..]);
    BytesValueBound(s[..n]);
  }

  /** x fits in buflen bytes exactly when its stored bytes from buflen up are zero. */
  lemma FitsInHigh(x: Mpi, buflen: nat)
    requires buflen <= |x.limbs| * CIL
    ensures FitsIn(x, buflen) <==>
      forall i | 0 <= i < |LeBytes(x.limbs)[buflen..]| :: LeBytes(x.limbs)[buflen..][i] == 0
  {
    var hi := LeBytes(x.limbs)[buflen..];
    assert forall i | 0 <= i < |hi| :: hi[i] == GetByte(x.limbs, buflen + i);
    if forall i | 0 <= i < |hi| :: hi[i] == 0 {
      forall k | buflen <= k < |x.limbs| * CIL
        ensures GetByte(x.limbs, k) == 0
      {
        assert hi[k - buflen] == 0;
      }
    }
  }

  /** A successful write's buffer denotes the integer written. */
  lemma WriteValue(x: Mpi, buflen: nat)
    requires FitsIn(x, buflen)
    ensures BytesValue(Fit(LeBytes(x.limbs), buflen, 0)) == MpiValue(x)
  {
    var s := LeBytes(x.limbs);
    LeBytesValue(x.limbs);
    if buflen >= |s| {
      BytesValuePad(s, buflen);
    } else {
      assert Fit(s, buflen, 0) == s[..buflen];
      SplitValue(s, buflen);
      FitsInHigh(x, buflen);
      BytesValueZero(s[buflen..]);
    }
  }

  /** A successful read leaves an integer with the value the buffer denotes. */
  lemma ReadValue(buf: seq<Byte>, x: Mpi)
    requires ReadResult(buf, x)
    ensures MpiValue(x) == BytesValue(buf)
  {
    LeBytesValue(x.limbs);
    BytesValuePad(buf, |x.limbs| * CIL);
  }

  /** Reading back a successfully written buffer gives the integer back:
      always its value, and its very limbs when the buffer spans them exactly. */
  lemma WriteReadRoundTrip(x: Mpi, buflen: nat, x': Mpi)
    requires FitsIn(x, buflen)
    requires ReadResult(Fit(LeBytes(x.limbs), buflen, 0), x')
    ensures MpiValue(x') == MpiValue(x)
    ensures buflen == |x.limbs| * CIL && !Unset(x) ==> x' == x
  {
    var buf := Fit(LeBytes(x.limbs), buflen, 0);
    ReadValue(buf, x');
    WriteValue(x, buflen);
    if buflen == |x.limbs| * CIL && !Unset(x) {
      assert buf == LeBytes(x.limbs);
      assert |x'.limbs| == |x.limbs|;
      LeBytesInjective(x'.limbs, x.limbs);
    }
  }

  /** Writing back what was read, into a buffer of the original length,
      succeeds and reproduces the buffer. */
  lemma ReadWriteRoundTrip(buf: seq<Byte>, x: Mpi)
    requires ReadResult(buf, x)
    ensures FitsIn(x, |buf|)
    ensures Fit(LeBytes(x.limbs), |buf|, 0) == buf
  {
    forall i | |buf| <= i < |x.limbs| * CIL
      ensures GetByte(x.limbs, i) == 0
    {
      assert LeBytes(x.limbs)[i] == 0;
    }
  }
}
