/** The accelerator's curve-parameter records and the designated initializer
    lists that build them. Every short-Weierstrass table of ecp_alt_b91_backend.c names
    `.eccp_p_h` twice; this module models both what C makes of that and what
    the second designator was evidently meant to be, `.eccp_p_n1`. */
module CurveTables {
  import opened Bytes

  /** eccp_curve_t: bit length of p, then word arrays for p, its helper
      constants p_h and p_n1, and the coefficients a and b. A member that no
      initializer names is a null pointer, modelled as no words. */
  datatype EccpCurve = EccpCurve(
    pBitLen: nat, p: seq<Limb>, pH: seq<Limb>, pN1: seq<Limb>, a: seq<Limb>, b: seq<Limb>)

  /** mont_curve_t: bit length of p, p, helper constants p_h and p_n1, and a24. */
  datatype MontCurve = MontCurve(
    pBitLen: nat, p: seq<Limb>, pH: seq<Limb>, pN1: seq<Limb>, a24: seq<Limb>)

  /** The array members of eccp_curve_t a designated initializer can name. */
  datatype Designator = DesP | DesPH | DesPN1 | DesA | DesB

  datatype Initializer = Initializer(member: Designator, words: seq<Limb>)

  /** The words a designated initializer list gives member m. When several
      initializers name the same member the last one wins (C11 6.7.9,
      paragraph 19); a member none names is a null pointer. */
  function MemberValue(inits: seq<Initializer>, m: Designator): seq<Limb>
  {
    if |inits| == 0 then []
    else if inits[|inits| - 1].member == m then inits[|inits| - 1].words
    else MemberValue(inits[..|inits| - 1], m)
  }

  function Build(pBitLen: nat, inits: seq<Initializer>): EccpCurve
  {
    EccpCurve(pBitLen, MemberValue(inits, DesP), MemberValue(inits, DesPH),
              MemberValue(inits, DesPN1), MemberValue(inits, DesA), MemberValue(inits, DesB))
  }

  /** The numbers one short-Weierstrass table of ecp_alt_b91_backend.c lists, in order. */
  datatype TableData = TableData(
    pBitLen: nat, p: seq<Limb>, first: seq<Limb>, second: seq<Limb>, a: seq<Limb>, b: seq<Limb>)

  /** The initializer list as the C code spells it: .eccp_p, .eccp_p_h,
      .eccp_p_h again, .eccp_a, .eccp_b. */
  function AsSpelled(t: TableData): seq<Initializer>
  {
    [Initializer(DesP, t.p), Initializer(DesPH, t.first), Initializer(DesPH, t.second),
     Initializer(DesA, t.a), Initializer(DesB, t.b)]
  }

  /** The same list with its second designator read as .eccp_p_n1. */
  function AsIntended(t: TableData): seq<Initializer>
  {
    [Initializer(DesP, t.p), Initializer(DesPH, t.first), Initializer(DesPN1, t.second),
     Initializer(DesA, t.a), Initializer(DesB, t.b)]
  }

  /** The record the compiler builds from the table as written. */
  function AsWrittenRecord(t: TableData): EccpCurve
  {
    Build(t.pBitLen, AsSpelled(t))
  }

  /** The record the table was evidently meant to build. */
  function IntendedRecord(t: TableData): EccpCurve
  {
    Build(t.pBitLen, AsIntended(t))
  }

  /** GET_WORD_LEN: the 32-bit words a `pbits`-bit operand occupies. */
  function WordLen(pbits: nat): (r: nat)
    ensures r * 32 >= pbits && (r == 0 || (r - 1) * 32 < pbits)
  {
    (pbits + 31) / 32
  }

  /** p_n1 is the one-word Montgomery constant: p[0] * p_n1 == -1 (mod 2^32). */
  predicate MontgomeryConstant(p: seq<Limb>, n1: seq<Limb>)
  {
    |p| > 0 && |n1| == 1 && (p[0] as int * n1[0] + 1) % 0x1_0000_0000 == 0
  }

  /** What the accelerator needs of a short-Weierstrass record: every
      multi-word member as wide as p, and p_n1 the Montgomery constant of p. */
  predicate WellFormed(c: EccpCurve)
  {
    && WordLen(c.pBitLen) > 0
    && |c.p| == WordLen(c.pBitLen)
    && |c.pH| == |c.p| && |c.a| == |c.p| && |c.b| == |c.p|
    && MontgomeryConstant(c.p, c.pN1)
  }

  predicate MontWellFormed(c: MontCurve)
  {
    && WordLen(c.pBitLen) > 0
    && |c.p| == WordLen(c.pBitLen)
    && |c.pH| == |c.p| && |c.a24| == |c.p|
    && MontgomeryConstant(c.p, c.pN1)
  }

  // ---------------------------------------------------------------------
  // The tables (ecp_alt_b91_backend.c, lines 102-312)

  const Secp256r1: TableData := TableData(256,
    [0xffffffff, 0xffffffff, 0xffffffff, 0x00000000, 0x00000000, 0x00000000, 0x00000001, 0xffffffff],
    [0x00000003, 0x00000000, 0xffffffff, 0xfffffffb, 0xfffffffe, 0xffffffff, 0xfffffffd, 0x00000004],
    [0x00000001],
    [0xfffffffc, 0xffffffff, 0xffffffff, 0x00000000, 0x00000000, 0x00000000, 0x00000001, 0xffffffff],
    [0x27d2604b, 0x3bce3c3e, 0xcc53b0f6, 0x651d06b0, 0x769886bc, 0xb3ebbd55, 0xaa3a93e7, 0x5ac635d8])

  const Secp256k1: TableData := TableData(256,
    [0xfffffc2f, 0xfffffffe, 0xffffffff, 0xffffffff, 0xffffffff, 0xffffffff, 0xffffffff, 0xffffffff],
    [0x000e90a1, 0x000007a2, 0x00000001, 0x00000000, 0x00000000, 0x00000000, 0x00000000, 0x00000000],
    [0xd2253531],
    [0x00000000, 0x00000000, 0x00000000, 0x00000000, 0x00000000, 0x00000000, 0x00000000, 0x00000000],
    [0x00000007, 0x00000000, 0x00000000, 0x00000000, 0x00000000, 0x00000000, 0x00000000, 0x00000000])

  const Bp256r1: TableData := TableData(256,
    [0x1f6e5377, 0x2013481d, 0xd5262028, 0x6e3bf623, 0x9d838d72, 0x3e660a90, 0xa1eea9bc, 0xa9fb57db],
    [0xa6465b6c, 0x8cfedf7b, 0x614d4f4d, 0x5cce4c26, 0x6b1ac807, 0xa1ecdacd, 0xe5957fa8, 0x4717aa21],
    [0xcefd89b9],
    [0xf330b5d9, 0xe94a4b44, 0x26dc5c6c, 0xfb8055c1, 0x417affe7, 0xeef67530, 0xfc2c3057, 0x7d5a0975],
    [0xff8c07b6, 0x6bccdc18, 0x5cf7e1ce, 0x95841629, 0xbbd77cbf, 0xf330b5d9, 0xe94a4b44, 0x26dc5c6c])

  const Secp224r1: TableData := TableData(224,
    [0x00000001, 0x00000000, 0x00000000, 0xffffffff, 0xffffffff, 0xffffffff, 0xffffffff],
    [0x00000001, 0x00000000, 0x00000000, 0xfffffffe, 0xffffffff, 0xffffffff, 0x00000000],
    [0xffffffff],
    [0xfffffffe, 0xffffffff, 0xffffffff, 0xfffffffe, 0xffffffff, 0xffffffff, 0xffffffff],
    [0x2355ffb4, 0x270b3943, 0xd7bfd8ba, 0x5044b0b7, 0xf5413256, 0x0c04b3ab, 0xb4050a85])

  const Secp224k1: TableData := TableData(224,
    [0xffffe56d, 0xfffffffe, 0xffffffff, 0xffffffff, 0xffffffff, 0xffffffff, 0xffffffff],
    [0x02c23069, 0x00003526, 0x00000001, 0x00000000, 0x00000000, 0x00000000, 0x00000000],
    [0x198d139b],
    [0x00000000, 0x00000000, 0x00000000, 0x00000000, 0x00000000, 0x00000000, 0x00000000],
    [0x00000005, 0x00000000, 0x00000000, 0x00000000, 0x00000000, 0x00000000, 0x00000000])

  const Secp192r1: TableData := TableData(192,
    [0xffffffff, 0xffffffff, 0xfffffffe, 0xffffffff, 0xffffffff, 0xffffffff],
    [0x00000001, 0x00000000, 0x00000002, 0x00000000, 0x00000001, 0x00000000],
    [0x00000001],
    [0xfffffffc, 0xffffffff, 0xfffffffe, 0xffffffff, 0xffffffff, 0xffffffff],
    [0xc146b9b1, 0xfeb8deec, 0x72243049, 0x0fa7e9ab, 0xe59c80e7, 0x64210519])

  const Secp192k1: TableData := TableData(192,
    [0xffffee37, 0xfffffffe, 0xffffffff, 0xffffffff, 0xffffffff, 0xffffffff],
    [0x013c4fd1, 0x00002392, 0x00000001, 0x00000000, 0x00000000, 0x00000000],
    [0x7446d879],
    [0x00000000, 0x00000000, 0x00000000, 0x00000000, 0x00000000, 0x00000000],
    [0x00000003, 0x00000000, 0x00000000, 0x00000000, 0x00000000, 0x00000000])

  /** The short-Weierstrass tables in the order the linking table lists them. */
  const SwTables: seq<TableData> :=
    [Secp256r1, Secp256k1, Bp256r1, Secp224r1, Secp224k1, Secp192r1, Secp192k1]

  /** x25519, whose one-word constant is named `.mont_p_n1` in the C code. */
  const X25519: MontCurve := MontCurve(255,
    [0xffffffed, 0xffffffff, 0xffffffff, 0xffffffff, 0xffffffff, 0xffffffff, 0xffffffff, 0x7fffffff],
    [0x000005a4, 0x00000000, 0x00000000, 0x00000000, 0x00000000, 0x00000000, 0x00000000, 0x00000000],
    [0x286bca1b],
    [0x0001db41, 0x00000000, 0x00000000, 0x00000000, 0x00000000, 0x00000000, 0x00000000, 0x00000000])

  // ---------------------------------------------------------------------
  // The duplicated designator

  /** As written, the second `.eccp_p_h` overrides the first: p_h becomes the
      second array and p_n1 is never set, so no record built that way is
      well formed, whatever the table holds. */
  lemma AsWrittenOverridesPH(t: TableData)
    ensures AsWrittenRecord(t).pH == t.second
    ensures AsWrittenRecord(t).pN1 == []
    ensures !WellFormed(AsWrittenRecord(t))
  {
    MemberValueOfFive(AsSpelled(t), DesPH);
    MemberValueOfFive(AsSpelled(t), DesPN1);
  }

  /** MemberValue on a five-entry list: the last entry naming m wins. */
  lemma MemberValueOfFive(inits: seq<Initializer>, m: Designator)
    requires |inits| == 5
    ensures MemberValue(inits, m) ==
      if inits[4].member == m then inits[4].words
      else if inits[3].member == m then inits[3].words
      else if inits[2].member == m then inits[2].words
      else if inits[1].member == m then inits[1].words
      else if inits[0].member == m then inits[0].words
      else []
  {
    var p4 := inits[..4];
    var p3 := inits[..3];
    var p2 := inits[..2];
    var p1 := inits[..1];
    assert p1[..0] == [] && p1[0] == inits[0];
    assert p2[..1] == p1 && p2[1] == inits[1];
    assert p3[..2] == p2 && p3[2] == inits[2];
    assert p4[..3] == p3 && p4[3] == inits[3];
    assert inits[..4] == p4;
    assert MemberValue(p1, m) == if inits[0].member == m then inits[0].words else [];
    assert MemberValue(p2, m) == if inits[1].member == m then inits[1].words else MemberValue(p1, m);
    assert MemberValue(p3, m) == if inits[2].member == m then inits[2].words else MemberValue(p2, m);
    assert MemberValue(p4, m) == if inits[3].member == m then inits[3].words else MemberValue(p3, m);
  }

  /** Read as intended, every short-Weierstrass table builds a well-formed
      record: its one-word constant is the Montgomery constant of its p. */
  lemma IntendedRecordsWellFormed()
    ensures forall i | 0 <= i < |SwTables| :: WellFormed(IntendedRecord(SwTables[i]))
    ensures forall i | 0 <= i < |SwTables| :: !WellFormed(AsWrittenRecord(SwTables[i]))
  {
    forall i | 0 <= i < |SwTables|
      ensures WellFormed(IntendedRecord(SwTables[i]))
      ensures !WellFormed(AsWrittenRecord(SwTables[i]))
    {
      var t := SwTables[i];
      AsWrittenOverridesPH(t);
      IntendedMembers(t);
    }
  }

  lemma IntendedMembers(t: TableData)
    ensures IntendedRecord(t) == EccpCurve(t.pBitLen, t.p, t.first, t.second, t.a, t.b)
  {
    var inits := AsIntended(t);
    MemberValueOfFive(inits, DesP);
    MemberValueOfFive(inits, DesPH);
    MemberValueOfFive(inits, DesPN1);
    MemberValueOfFive(inits, DesA);
    MemberValueOfFive(inits, DesB);
  }

  /** As written, each listed array lands in the member its position names,
      except that the second one lands in p_h and p_n1 stays NULL. */
  lemma AsWrittenMembers(t: TableData)
    ensures AsWrittenRecord(t) == EccpCurve(t.pBitLen, t.p, t.second, [], t.a, t.b)
  {
    var inits := AsSpelled(t);
    MemberValueOfFive(inits, DesP);
    MemberValueOfFive(inits, DesPH);
    MemberValueOfFive(inits, DesPN1);
    MemberValueOfFive(inits, DesA);
    MemberValueOfFive(inits, DesB);
  }

  /** The Montgomery-curve record, whose member is named correctly, satisfies
      the same constraint. */
  lemma X25519WellFormed()
    ensures MontWellFormed(X25519)
  {
  }
}
