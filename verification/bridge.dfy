// The three entry points of the B91 elliptic-curve backend: they check their
// arguments, stage the operands as little-endian word arrays, drive the PKE
// accelerator under the ECP lock, load the result into R and wipe the arrays.

module Bridge {
  import opened Wrappers
  import opened Errors
  import opened Bytes
  import opened Codec
  import opened CurveTables
  import opened Curves
  import opened Pke

  /** Whether each coordinate of R can get the memory a codec call on it may
      ask for (each coordinate is resized at most once per call). */
  datatype Alloc = Alloc(x: bool, y: bool, z: bool)

  /** What the entry points depend on but do not control: the largest operand
      the accelerator takes (PKE_OPERAND_MAX_WORD_LEN), the accelerator
      itself, what the stack arrays hold before they are written, and the
      allocator. */
  datatype Env = Env(
    maxWords: nat,
    hw: HwCall -> HwReply,
    stack: Buffer -> seq<Limb>,
    alloc: Alloc)

  /** A stack array of `wl` words before anything is written to it. */
  function Junk(env: Env, b: Buffer, wl: nat): seq<Limb>
  {
    Fit(env.stack(b), wl, 0)
  }

  /** What memset(..., 0, ...) leaves in an array of n words. */
  function Zeros(n: nat): seq<Limb>
  {
    Fit([], n, 0)
  }

  /** The word array `prior` after `(void) mbedtls_mpi_write_binary_le(x, ...)`
      into it: x's little-endian bytes when x fits, else untouched. */
  function Operand(x: Mpi, prior: seq<Limb>): seq<Limb>
  {
    if FitsIn(x, CIL * |prior|) then LimbsOfBytes(Fit(LeBytes(x.limbs), CIL * |prior|, 0)) else prior
  }

  /** A staged operand keeps the array's length and holds x's value when x
      fits in it; an operand too wide leaves the previous contents. */
  lemma OperandMeaning(x: Mpi, prior: seq<Limb>)
    ensures |Operand(x, prior)| == |prior|
    ensures FitsIn(x, CIL * |prior|) ==> LimbsValue(Operand(x, prior)) == MpiValue(x)
    ensures !FitsIn(x, CIL * |prior|) ==> Operand(x, prior) == prior
  {
    CharsToLimbsOfWords(|prior|);
    if FitsIn(x, CIL * |prior|) {
      var b := Fit(LeBytes(x.limbs), CIL * |prior|, 0);
      WriteValue(x, CIL * |prior|);
      LimbsOfBytesValue(b);
    }
  }

  /** Stages x into a word array with mbedtls_mpi_write_binary_le, ignoring
      its result as the entry points do. */
  method StageOperand(x: Mpi, prior: seq<Limb>) returns (w: seq<Limb>)
    ensures w == Operand(x, prior)
    ensures |w| == |prior|
    ensures FitsIn(x, CIL * |prior|) ==> LimbsValue(w) == MpiValue(x)
    ensures !FitsIn(x, CIL * |prior|) ==> w == prior
  {
    var bytes := LeBytes(prior);
    assert |bytes| == CIL * |prior|;
    var ret, out := WriteBinaryLe(x, bytes);
    w := LimbsOfBytes(out);
    if ret == MpiBufferTooSmall {
      LimbsOfLeBytes(prior);
      assert w == prior;
    } else {
      assert out == Fit(LeBytes(x.limbs), CIL * |prior|, 0);
    }
    OperandMeaning(x, prior);
  }

  /** What `(void) mbedtls_mpi_read_binary_le(coord, words, ...)` leaves in a
      coordinate: no limbs when the read has to allocate and cannot, else
      the words, read as a number. */
  predicate LoadedFrom(prev: Mpi, now: Mpi, words: seq<Limb>, allocOk: bool)
  {
    if ReadAllocates(prev, CIL * |words|) && !allocOk then now == Mpi([])
    else ReadResult(LeBytes(words), now)
  }

  /** What `(void) mbedtls_mpi_lset(coord, z)` leaves in a coordinate. */
  predicate SetFrom(prev: Mpi, now: Mpi, z: Limb, allocOk: bool)
  {
    if Unset(prev) && !allocOk then now == prev
    else MpiValue(now) == z && |now.limbs| == Max(|prev.limbs|, 1)
  }

  /** A loaded coordinate has the value of the words, in as many limbs. */
  lemma LoadedValue(prev: Mpi, now: Mpi, words: seq<Limb>, allocOk: bool)
    requires LoadedFrom(prev, now, words, allocOk)
    requires allocOk || !ReadAllocates(prev, CIL * |words|)
    ensures MpiValue(now) == LimbsValue(words)
    ensures |now.limbs| == Max(|words|, 1)
  {
    CharsToLimbsOfWords(|words|);
    ReadValue(LeBytes(words), now);
    LeBytesValue(words);
  }

  /** Staging a loaded coordinate again gives back the words it was loaded
      from. */
  lemma LoadThenStage(prev: Mpi, now: Mpi, words: seq<Limb>, allocOk: bool, prior: seq<Limb>)
    requires LoadedFrom(prev, now, words, allocOk)
    requires allocOk || !ReadAllocates(prev, CIL * |words|)
    requires |prior| == |words|
    ensures Operand(now, prior) == words
  {
    var bytes := LeBytes(words);
    assert |bytes| == CIL * |prior|;
    assert ReadResult(bytes, now);
    ReadWriteRoundTrip(bytes, now);
    assert FitsIn(now, CIL * |prior|);
    assert Fit(LeBytes(now.limbs), CIL * |prior|, 0) == bytes;
    LimbsOfLeBytes(words);
  }

  /** Loads hardware output words into a coordinate of R. */
  method LoadCoordinate(prev: Mpi, words: seq<Limb>, allocOk: bool) returns (now: Mpi)
    ensures LoadedFrom(prev, now, words, allocOk)
    ensures allocOk || !ReadAllocates(prev, CIL * |words|) ==>
              MpiValue(now) == LimbsValue(words) && |now.limbs| == Max(|words|, 1)
  {
    var ret;
    ret, now := ReadBinaryLe(prev, LeBytes(words), allocOk);
    if allocOk || !ReadAllocates(prev, CIL * |words|) {
      LoadedValue(prev, now, words, allocOk);
    }
  }

  /** Stages x into the array named b and records the staging. */
  method StageInto(x: Mpi, prior: seq<Limb>, b: Buffer, trace: seq<Event>)
    returns (w: seq<Limb>, trace': seq<Event>)
    ensures w == Operand(x, prior) && trace' == Then(trace, Stage(b))
  {
    w := StageOperand(x, prior);
    trace' := Then(trace, Stage(b));
  }

  /** Loads accelerator words into coordinate c of R and records the load. */
  method LoadInto(prev: Mpi, words: seq<Limb>, allocOk: bool, c: Coord, trace: seq<Event>)
    returns (now: Mpi, trace': seq<Event>)
    ensures LoadedFrom(prev, now, words, allocOk) && trace' == Then(trace, Load(c))
  {
    now := LoadCoordinate(prev, words, allocOk);
    trace' := Then(trace, Load(c));
  }

  /** `(void) mbedtls_mpi_lset` of coordinate c of R to z, recorded as a load. */
  method SetInto(prev: Mpi, z: Limb, allocOk: bool, c: Coord, trace: seq<Event>)
    returns (now: Mpi, trace': seq<Event>)
    ensures SetFrom(prev, now, z, allocOk) && trace' == Then(trace, Load(c))
  {
    now := Lset(prev, z, allocOk).1;
    trace' := Then(trace, Load(c));
  }

  /** The short-Weierstrass record the backend uses for a group, if any. */
  function WeierstrassCurve(grp: Group): Option<EccpCurve>
  {
    if GetType(grp) == ShortWeierstrass then Lookup(EccpLinking, grp.id) else None
  }

  /** The Montgomery record the backend uses for a group, if any. */
  function MontgomeryCurve(grp: Group): Option<MontCurve>
  {
    if GetType(grp) == Montgomery then Lookup(MontLinking, grp.id) else None
  }

  /** A group has at most one record, and only a curve the registries enable
      has one. */
  lemma CurveRecordsExclusive(grp: Group)
    ensures !(WeierstrassCurve(grp).Some? && MontgomeryCurve(grp).Some?)
    ensures WeierstrassCurve(grp).Some? <==> GetType(grp) == ShortWeierstrass && EccpEnabled(grp.id)
    ensures MontgomeryCurve(grp).Some? <==> GetType(grp) == Montgomery && grp.id == DpCurve25519
  {
    EccpRegistered(grp.id);
  }

  // ---------------------------------------------------------------------
  // The stack arrays

  /** The word arrays on an entry point's stack, one per buffer name; an
      array the entry point does not declare stays empty. */
  datatype Arrays = Arrays(ms: seq<Limb>, qx: seq<Limb>, qy: seq<Limb>,
                           q1x: seq<Limb>, q1y: seq<Limb>, q2x: seq<Limb>, q2y: seq<Limb>)

  /** The arrays of an entry point that returns before declaring any. */
  const Undeclared := Arrays([], [], [], [], [], [], [])

  /** The arrays a, with every array named in names replaced by v. */
  function Override(a: Arrays, names: seq<Buffer>, v: seq<Limb>): Arrays
  {
    Arrays(if Ms in names then v else a.ms, if Qx in names then v else a.qx,
           if Qy in names then v else a.qy, if Q1x in names then v else a.q1x,
           if Q1y in names then v else a.q1y, if Q2x in names then v else a.q2x,
           if Q2y in names then v else a.q2y)
  }

  /** `unsigned int b[word_len]` for each b of names: each declared array
      holds whatever the stack held there. */
  function Declare(env: Env, names: seq<Buffer>, wl: nat): Arrays
  {
    Arrays(if Ms in names then Junk(env, Ms, wl) else [], if Qx in names then Junk(env, Qx, wl) else [],
           if Qy in names then Junk(env, Qy, wl) else [], if Q1x in names then Junk(env, Q1x, wl) else [],
           if Q1y in names then Junk(env, Q1y, wl) else [], if Q2x in names then Junk(env, Q2x, wl) else [],
           if Q2y in names then Junk(env, Q2y, wl) else [])
  }

  /** a' differs from a at most in the arrays of names. */
  predicate Keeps(a: Arrays, a': Arrays, names: seq<Buffer>)
  {
    && (Ms in names || a'.ms == a.ms) && (Qx in names || a'.qx == a.qx)
    && (Qy in names || a'.qy == a.qy) && (Q1x in names || a'.q1x == a.q1x)
    && (Q1y in names || a'.q1y == a.q1y) && (Q2x in names || a'.q2x == a.q2x)
    && (Q2y in names || a'.q2y == a.q2y)
  }

  /** The arrays of names are all cleared and `wl` words long; no other
      array was ever declared. */
  predicate Wiped(bufs: Arrays, names: seq<Buffer>, wl: nat)
  {
    bufs == Override(Undeclared, names, Zeros(wl))
  }

  /** The arrays after `memset(b, 0, sizeof(b))` on the one named b. */
  function Clear(a: Arrays, b: Buffer, wl: nat): (r: Arrays)
    ensures r == Override(a, [b], Zeros(wl))
  {
    match b
    case Ms => a.(ms := Zeros(wl))
    case Qx => a.(qx := Zeros(wl))
    case Qy => a.(qy := Zeros(wl))
    case Q1x => a.(q1x := Zeros(wl))
    case Q1y => a.(q1y := Zeros(wl))
    case Q2x => a.(q2x := Zeros(wl))
    case Q2y => a.(q2y := Zeros(wl))
  }

  /** The trace ends by wiping the arrays of `names`, in that order. */
  predicate EndsWithWipes(t: seq<Event>, names: seq<Buffer>)
  {
    |t| >= |names| && forall i | 0 <= i < |names| :: t[|t| - |names| + i] == Wipe(names[i])
  }

  /** The closing memsets: clears each named array, whatever staging and the
      accelerator left in it, recording one Wipe per array, in order. */
  method WipeAll(trace: seq<Event>, a: Arrays, names: seq<Buffer>, wl: nat)
    returns (trace': seq<Event>, a': Arrays)
    requires forall b | b in Staged(trace) :: b in names
    ensures a' == Override(a, names, Zeros(wl))
    ensures EndsWithWipes(trace', names)
    ensures WipedAfterStaging(trace')
    ensures Run(trace') == Run(trace) && Calls(trace') == Calls(trace)
    ensures Acquires(trace') == Acquires(trace) && Releases(trace') == Releases(trace)
  {
    trace', a' := trace, a;
    for j := 0 to |names|
      invariant a' == Override(a, names[..j], Zeros(wl))
      invariant |trace'| == |trace| + j && trace'[..|trace|] == trace
      invariant forall i | |trace| <= i < |trace'| :: trace'[i] == Wipe(names[i - |trace|])
      invariant Run(trace') == Run(trace) && Calls(trace') == Calls(trace) && Staged(trace') == Staged(trace)
      invariant Acquires(trace') == Acquires(trace) && Releases(trace') == Releases(trace)
    {
      ClearNext(a, a', names, j, wl);
      trace' := Then(trace', Wipe(names[j]));
      a' := Clear(a', names[j], wl);
    }
    assert names[..|names|] == names;
    WipesFollowStaging(trace, names, trace');
  }

  /** Clearing the next named array extends the cleared prefix by one. */
  lemma ClearNext(a: Arrays, a': Arrays, names: seq<Buffer>, j: nat, wl: nat)
    requires j < |names| && a' == Override(a, names[..j], Zeros(wl))
    ensures Clear(a', names[j], wl) == Override(a, names[..j + 1], Zeros(wl))
  {
    assert names[..j + 1] == names[..j] + [names[j]];
  }

  /** Wiping every array the trace staged into leaves no staged array
      unwiped. */
  lemma WipesFollowStaging(trace: seq<Event>, names: seq<Buffer>, t: seq<Event>)
    requires forall b | b in Staged(trace) :: b in names
    requires |t| == |trace| + |names| && t[..|trace|] == trace
    requires forall i | |trace| <= i < |t| :: t[i] == Wipe(names[i - |trace|])
    ensures WipedAfterStaging(t)
  {
    StagedAt(trace);
    forall i | 0 <= i < |t| && t[i].Stage?
      ensures Wipe(t[i].buffer) in t[i + 1..]
    {
      assert t[i] == t[..|trace|][i];
      var k :| 0 <= k < |names| && names[k] == t[i].buffer;
      assert t[i + 1..][|trace| + k - i - 1] == Wipe(names[k]);
    }
  }

  // ---------------------------------------------------------------------
  // ecp_alt_b91_backend_check_pubkey

  /** The verify request check_pubkey makes on the arrays it declared. */
  function VerifyCall(curve: EccpCurve, pt: Point, a: Arrays): HwCall
  {
    PointVerify(curve, Operand(pt.x, a.qx), Operand(pt.y, a.qy))
  }

  /** check_pubkey on a registered short-Weierstrass curve, from staging to
      unlocking; t0 is the entry point's trace so far, in which nothing has
      happened yet. */
  method VerifyWeierstrass(env: Env, curve: EccpCurve, pt: Point, a: Arrays, t0: seq<Event>)
    returns (ret: Status, trace: seq<Event>, a': Arrays)
    requires Fresh(t0)
    ensures Disciplined(trace) && Acquires(trace) == 1 && Staged(trace) == {Qx, Qy}
    // the coordinates are staged into Qx and Qy, and the request reads them there
    ensures a' == a.(qx := Operand(pt.x, a.qx), qy := Operand(pt.y, a.qy))
    ensures Calls(trace) == [PointVerify(curve, a'.qx, a'.qy)]
    ensures ret == Ok <==> env.hw(VerifyCall(curve, pt, a)).ok
    ensures ret != Ok ==> ret == EcpInvalidKey
  {
    var qx;
    qx, trace := StageInto(pt.x, a.qx, Qx, t0);
    var qy;
    qy, trace := StageInto(pt.y, a.qy, Qy, trace);
    a' := a.(qx := qx, qy := qy);
    trace := Then(trace, Acquire);
    var call := PointVerify(curve, a'.qx, a'.qy);
    var reply := env.hw(call);
    trace := Then(trace, Invoke(call, reply.ok));
    ret := if reply.ok then Ok else EcpInvalidKey;
    trace := Then(trace, Release);
  }

  /** check_pubkey between its argument checks and the wiping of its arrays. */
  method VerifyDispatch(env: Env, g: Group, pt: Point, a: Arrays)
    returns (ret: Status, trace: seq<Event>, a': Arrays)
    ensures Disciplined(trace) && Staged(trace) <= {Qx, Qy} && Keeps(a, a', [Qx, Qy])
    ensures WeierstrassCurve(g).None? ==>
              ret == PlatformFeatureUnsupported && Calls(trace) == [] && Acquires(trace) == 0 && a' == a
    ensures WeierstrassCurve(g).Some? ==>
              var call := VerifyCall(WeierstrassCurve(g).value, pt, a);
              && Calls(trace) == [call] && Acquires(trace) == 1
              && a'.qx == call.x && a'.qy == call.y
              && (ret == Ok <==> env.hw(call).ok)
              && (ret != Ok ==> ret == EcpInvalidKey)
  {
    ret, trace, a' := PlatformFeatureUnsupported, [], a;
    if GetType(g) == ShortWeierstrass {
      var curve := EccpCurveGet(g);
      if curve.Some? {
        ret, trace, a' := VerifyWeierstrass(env, curve.value, pt, a, []);
      }
    }
  }

  method CheckPubkey(env: Env, grp: Option<Group>, pt: Option<Point>)
    returns (ret: Status, trace: seq<Event>, bufs: Arrays)
    // a missing argument is refused before anything else
    ensures grp.None? || pt.None? ==> ret == EcpBadInputData && trace == [] && bufs == Undeclared
    // an operand wider than the accelerator takes declares no array
    ensures grp.Some? && pt.Some? && WordLen(grp.value.pbits) > env.maxWords ==>
              ret == PlatformFeatureUnsupported && trace == [] && bufs == Undeclared
    ensures grp.Some? && pt.Some? && WordLen(grp.value.pbits) <= env.maxWords ==>
              && Wiped(bufs, [Qx, Qy], WordLen(grp.value.pbits))
              && Disciplined(trace)
              && EndsWithWipes(trace, [Qx, Qy])
              && WipedAfterStaging(trace)
    // only a registered short-Weierstrass curve reaches the accelerator
    ensures grp.Some? && pt.Some? && WordLen(grp.value.pbits) <= env.maxWords &&
            WeierstrassCurve(grp.value).None? ==>
              ret == PlatformFeatureUnsupported && Calls(trace) == [] && Acquires(trace) == 0
    ensures grp.Some? && pt.Some? && WordLen(grp.value.pbits) <= env.maxWords &&
            WeierstrassCurve(grp.value).Some? ==>
              var call := VerifyCall(WeierstrassCurve(grp.value).value, pt.value,
                                     Declare(env, [Qx, Qy], WordLen(grp.value.pbits)));
              && Calls(trace) == [call] && Acquires(trace) == 1
              && (ret == Ok <==> env.hw(call).ok)
              && (ret != Ok ==> ret == EcpInvalidKey)
  {
    if grp.None? || pt.None? {
      return EcpBadInputData, [], Undeclared;
    }
    var wl := WordLen(grp.value.pbits);
    if wl > env.maxWords {
      return PlatformFeatureUnsupported, [], Undeclared;
    }
    var a := Declare(env, [Qx, Qy], wl);
    ret, trace, a := VerifyDispatch(env, grp.value, pt.value, a);
    trace, bufs := WipeAll(trace, a, [Qx, Qy], wl);
  }

  // ---------------------------------------------------------------------
  // ecp_alt_b91_backend_mul

  /** The multiplication request mul makes on a short-Weierstrass curve. */
  function WeierstrassMulCall(curve: EccpCurve, m: Mpi, P: Point, a: Arrays): HwCall
  {
    PointMul(curve, Operand(m, a.ms), Operand(P.x, a.qx), Operand(P.y, a.qy))
  }

  /** The multiplication request mul makes on a Montgomery curve. */
  function MontgomeryMulCall(curve: MontCurve, m: Mpi, P: Point, a: Arrays): HwCall
  {
    X25519Mul(curve, Operand(m, a.ms), Operand(P.x, a.qx))
  }

  /** The short-Weierstrass branch of mul, from staging to unlocking;
      t0 is the entry point's trace so far, in which nothing has happened yet. */
  method MulWeierstrass(env: Env, curve: EccpCurve, wl: nat, R: Point, m: Mpi, P: Point, a: Arrays, t0: seq<Event>)
    returns (ret: Status, R': Point, trace: seq<Event>, a': Arrays)
    requires Fresh(t0)
    ensures Disciplined(trace) && Acquires(trace) == 1 && Staged(trace) == {Ms, Qx, Qy}
    ensures Calls(trace) == [WeierstrassMulCall(curve, m, P, a)]
    // the accelerator writes its product over the staged point
    ensures var out := env.hw(WeierstrassMulCall(curve, m, P, a));
            a' == a.(ms := Operand(m, a.ms), qx := Fit(out.x, wl, 0), qy := Fit(out.y, wl, 0))
    ensures ret == Ok <==> env.hw(WeierstrassMulCall(curve, m, P, a)).ok
    ensures ret != Ok ==> ret == PlatformHwAccelFailed && R' == R
    ensures ret == Ok ==>
              && LoadedFrom(R.x, R'.x, a'.qx, env.alloc.x)
              && LoadedFrom(R.y, R'.y, a'.qy, env.alloc.y)
              && SetFrom(R.z, R'.z, 1, env.alloc.z)
  {
    trace := t0;
    var ms;
    ms, trace := StageInto(m, a.ms, Ms, trace);
    var qx;
    qx, trace := StageInto(P.x, a.qx, Qx, trace);
    var qy;
    qy, trace := StageInto(P.y, a.qy, Qy, trace);
    trace := Then(trace, Acquire);
    var call := PointMul(curve, ms, qx, qy);
    var reply := env.hw(call);
    trace := Then(trace, Invoke(call, reply.ok));
    a' := a.(ms := ms, qx := Fit(reply.x, wl, 0), qy := Fit(reply.y, wl, 0));
    if reply.ok {
      var x;
      x, trace := LoadInto(R.x, a'.qx, env.alloc.x, CoordX, trace);
      var y;
      y, trace := LoadInto(R.y, a'.qy, env.alloc.y, CoordY, trace);
      var z;
      z, trace := SetInto(R.z, 1, env.alloc.z, CoordZ, trace);
      ret, R' := Ok, Point(x, y, z);
    } else {
      ret, R' := PlatformHwAccelFailed, R;
    }
    trace := Then(trace, Release);
  }

  /** The Montgomery branch of mul, from staging to unlocking;
      t0 is the entry point's trace so far, in which nothing has happened yet. */
  method MulMontgomery(env: Env, curve: MontCurve, wl: nat, R: Point, m: Mpi, P: Point, a: Arrays, t0: seq<Event>)
    returns (ret: Status, R': Point, trace: seq<Event>, a': Arrays)
    requires Fresh(t0)
    ensures Disciplined(trace) && Acquires(trace) == 1 && Staged(trace) == {Ms, Qx}
    ensures Calls(trace) == [MontgomeryMulCall(curve, m, P, a)]
    // the accelerator writes the product's u-coordinate over the staged one
    ensures var out := env.hw(MontgomeryMulCall(curve, m, P, a));
            a' == a.(ms := Operand(m, a.ms), qx := Fit(out.x, wl, 0))
    ensures ret == Ok <==> env.hw(MontgomeryMulCall(curve, m, P, a)).ok
    ensures ret != Ok ==> ret == PlatformHwAccelFailed && R' == R
    ensures ret == Ok ==>
              && LoadedFrom(R.x, R'.x, a'.qx, env.alloc.x)
              && SetFrom(R.y, R'.y, 0, env.alloc.y)
              && SetFrom(R.z, R'.z, 1, env.alloc.z)
  {
    trace := t0;
    var ms;
    ms, trace := StageInto(m, a.ms, Ms, trace);
    var qx;
    qx, trace := StageInto(P.x, a.qx, Qx, trace);
    trace := Then(trace, Acquire);
    var call := X25519Mul(curve, ms, qx);
    var reply := env.hw(call);
    trace := Then(trace, Invoke(call, reply.ok));
    a' := a.(ms := ms, qx := Fit(reply.x, wl, 0));
    if reply.ok {
      var x;
      x, trace := LoadInto(R.x, a'.qx, env.alloc.x, CoordX, trace);
      var y;
      y, trace := SetInto(R.y, 0, env.alloc.y, CoordY, trace);
      var z;
      z, trace := SetInto(R.z, 1, env.alloc.z, CoordZ, trace);
      ret, R' := Ok, Point(x, y, z);
    } else {
      ret, R' := PlatformHwAccelFailed, R;
    }
    trace := Then(trace, Release);
  }

  /** mul between its argument checks and the wiping of its arrays. */
  method MulDispatch(env: Env, g: Group, wl: nat, R: Point, m: Mpi, P: Point, a: Arrays)
    returns (ret: Status, R': Point, trace: seq<Event>, a': Arrays)
    ensures Disciplined(trace) && Staged(trace) <= {Ms, Qx, Qy} && Keeps(a, a', [Ms, Qx, Qy])
    ensures WeierstrassCurve(g).None? && MontgomeryCurve(g).None? ==>
              ret == PlatformFeatureUnsupported && R' == R && Calls(trace) == [] && Acquires(trace) == 0
              && a' == a
    ensures ret != Ok ==> R' == R
    ensures WeierstrassCurve(g).Some? ==>
              var call := WeierstrassMulCall(WeierstrassCurve(g).value, m, P, a);
              && Calls(trace) == [call] && Acquires(trace) == 1
              && a'.qx == Fit(env.hw(call).x, wl, 0) && a'.qy == Fit(env.hw(call).y, wl, 0)
              && (ret == Ok <==> env.hw(call).ok)
              && (ret != Ok ==> ret == PlatformHwAccelFailed)
              && (ret == Ok ==>
                    && LoadedFrom(R.x, R'.x, a'.qx, env.alloc.x)
                    && LoadedFrom(R.y, R'.y, a'.qy, env.alloc.y)
                    && SetFrom(R.z, R'.z, 1, env.alloc.z))
    ensures MontgomeryCurve(g).Some? ==>
              var call := MontgomeryMulCall(MontgomeryCurve(g).value, m, P, a);
              && Calls(trace) == [call] && Acquires(trace) == 1
              && a'.qx == Fit(env.hw(call).x, wl, 0)
              && (ret == Ok <==> env.hw(call).ok)
              && (ret != Ok ==> ret == PlatformHwAccelFailed)
              && (ret == Ok ==>
                    && LoadedFrom(R.x, R'.x, a'.qx, env.alloc.x)
                    && SetFrom(R.y, R'.y, 0, env.alloc.y)
                    && SetFrom(R.z, R'.z, 1, env.alloc.z))
  {
    ret, R', trace, a' := PlatformFeatureUnsupported, R, [], a;
    CurveRecordsExclusive(g);
    if GetType(g) == ShortWeierstrass {
      var curve := EccpCurveGet(g);
      if curve.Some? {
        ret, R', trace, a' := MulWeierstrass(env, curve.value, wl, R, m, P, a, []);
      }
    }
    if GetType(g) == Montgomery {
      var curve := MontCurveGet(g);
      if curve.Some? {
        ret, R', trace, a' := MulMontgomery(env, curve.value, wl, R, m, P, a, []);
      }
    }
  }

  predicate MulArgs(grp: Option<Group>, R: Option<Point>, m: Option<Mpi>, P: Option<Point>)
  {
    grp.Some? && R.Some? && m.Some? && P.Some?
  }

  method Mul(env: Env, grp: Option<Group>, R: Option<Point>, m: Option<Mpi>, P: Option<Point>)
    returns (ret: Status, R': Option<Point>, trace: seq<Event>, bufs: Arrays)
    ensures !MulArgs(grp, R, m, P) ==> ret == EcpBadInputData && R' == R && trace == [] && bufs == Undeclared
    ensures MulArgs(grp, R, m, P) && WordLen(grp.value.pbits) > env.maxWords ==>
              ret == PlatformFeatureUnsupported && R' == R && trace == [] && bufs == Undeclared
    ensures MulArgs(grp, R, m, P) && WordLen(grp.value.pbits) <= env.maxWords ==>
              && Wiped(bufs, [Ms, Qx, Qy], WordLen(grp.value.pbits))
              && Disciplined(trace)
              && EndsWithWipes(trace, [Ms, Qx, Qy])
              && WipedAfterStaging(trace)
              && R'.Some?
    // a group with no record is refused without taking the lock
    ensures MulArgs(grp, R, m, P) && WordLen(grp.value.pbits) <= env.maxWords &&
            WeierstrassCurve(grp.value).None? && MontgomeryCurve(grp.value).None? ==>
              ret == PlatformFeatureUnsupported && R' == R && Calls(trace) == [] && Acquires(trace) == 0
    // a failed multiplication leaves R alone
    ensures MulArgs(grp, R, m, P) && ret != Ok ==> R' == R
    ensures MulArgs(grp, R, m, P) && WordLen(grp.value.pbits) <= env.maxWords &&
            WeierstrassCurve(grp.value).Some? ==>
              var wl := WordLen(grp.value.pbits);
              var call := WeierstrassMulCall(WeierstrassCurve(grp.value).value, m.value, P.value,
                                             Declare(env, [Ms, Qx, Qy], wl));
              && Calls(trace) == [call] && Acquires(trace) == 1
              && (ret == Ok <==> env.hw(call).ok)
              && (ret != Ok ==> ret == PlatformHwAccelFailed)
              && (ret == Ok ==>
                    && LoadedFrom(R.value.x, R'.value.x, Fit(env.hw(call).x, wl, 0), env.alloc.x)
                    && LoadedFrom(R.value.y, R'.value.y, Fit(env.hw(call).y, wl, 0), env.alloc.y)
                    && SetFrom(R.value.z, R'.value.z, 1, env.alloc.z))
    ensures MulArgs(grp, R, m, P) && WordLen(grp.value.pbits) <= env.maxWords &&
            MontgomeryCurve(grp.value).Some? ==>
              var wl := WordLen(grp.value.pbits);
              var call := MontgomeryMulCall(MontgomeryCurve(grp.value).value, m.value, P.value,
                                            Declare(env, [Ms, Qx, Qy], wl));
              && Calls(trace) == [call] && Acquires(trace) == 1
              && (ret == Ok <==> env.hw(call).ok)
              && (ret != Ok ==> ret == PlatformHwAccelFailed)
              && (ret == Ok ==>
                    && LoadedFrom(R.value.x, R'.value.x, Fit(env.hw(call).x, wl, 0), env.alloc.x)
                    && SetFrom(R.value.y, R'.value.y, 0, env.alloc.y)
                    && SetFrom(R.value.z, R'.value.z, 1, env.alloc.z))
  {
    if !MulArgs(grp, R, m, P) {
      return EcpBadInputData, R, [], Undeclared;
    }
    var g := grp.value;
    var wl := WordLen(g.pbits);
    if wl > env.maxWords {
      return PlatformFeatureUnsupported, R, [], Undeclared;
    }
    var a := Declare(env, [Ms, Qx, Qy], wl);
    var p;
    ret, p, trace, a := MulDispatch(env, g, wl, R.value, m.value, P.value, a);
    R' := Some(p);
    trace, bufs := WipeAll(trace, a, [Ms, Qx, Qy], wl);
  }

  // ---------------------------------------------------------------------
  // ecp_alt_b91_backend_muladd

  /** The arrays once P and Q are staged into Q1 and Q2. */
  function StagePoints(P: Point, Q: Point, a: Arrays): (r: Arrays)
    ensures Keeps(a, r, [Q1x, Q1y, Q2x, Q2y])
  {
    a.(q1x := Operand(P.x, a.q1x), q1y := Operand(P.y, a.q1y), q2x := Operand(Q.x, a.q2x), q2y := Operand(Q.y, a.q2y))
  }

  /** The requests muladd makes once the lock is held, given its arrays with
      the points staged: m·P on Q1, then n·Q on Q2 with n staged over m's
      words, then the sum of the two products; each is made only when the
      one before it succeeded. */
  function ProductCalls(env: Env, curve: EccpCurve, wl: nat, m: Mpi, n: Mpi, a: Arrays): (r: seq<HwCall>)
    ensures 1 <= |r| <= 3
    // every request but the last succeeded, and a sequence cut short ends
    // with the request that failed
    ensures forall i | 0 <= i < |r| - 1 :: env.hw(r[i]).ok
    ensures |r| < 3 ==> !env.hw(r[|r| - 1]).ok
  {
    var k1 := Operand(m, a.ms);
    var c1 := PointMul(curve, k1, a.q1x, a.q1y);
    var c2 := PointMul(curve, Operand(n, k1), a.q2x, a.q2y);
    var o1, o2 := env.hw(c1), env.hw(c2);
    var c3 := PointAdd(curve, Fit(o1.x, wl, 0), Fit(o1.y, wl, 0), Fit(o2.x, wl, 0), Fit(o2.y, wl, 0));
    if !o1.ok then [c1] else if !o2.ok then [c1, c2] else [c1, c2, c3]
  }

  /** The requests muladd makes, in order, on the arrays it declared. */
  function MuladdCalls(env: Env, curve: EccpCurve, wl: nat, m: Mpi, P: Point, n: Mpi, Q: Point, a: Arrays): seq<HwCall>
  {
    ProductCalls(env, curve, wl, m, n, StagePoints(P, Q, a))
  }

  /** The point addition and the loading of R, once both products are in Q1
      and Q2. */
  method AddAndLoad(env: Env, curve: EccpCurve, wl: nat, R: Point, a: Arrays, trace: seq<Event>)
    returns (ret: Status, R': Point, trace': seq<Event>, a': Arrays)
    requires Run(trace) == Held
    ensures Run(trace') == Held && Acquires(trace') == Acquires(trace) && Releases(trace') == Releases(trace)
    ensures Staged(trace') == Staged(trace)
    ensures Calls(trace') == Calls(trace) + [PointAdd(curve, a.q1x, a.q1y, a.q2x, a.q2y)]
    // the sum is written over the first product
    ensures var out := env.hw(PointAdd(curve, a.q1x, a.q1y, a.q2x, a.q2y));
            a' == a.(q1x := Fit(out.x, wl, 0), q1y := Fit(out.y, wl, 0))
    ensures ret == Ok <==> env.hw(PointAdd(curve, a.q1x, a.q1y, a.q2x, a.q2y)).ok
    ensures ret != Ok ==> ret == PlatformHwAccelFailed && R' == R
    ensures ret == Ok ==>
              && LoadedFrom(R.x, R'.x, a'.q1x, env.alloc.x)
              && LoadedFrom(R.y, R'.y, a'.q1y, env.alloc.y)
              && SetFrom(R.z, R'.z, 1, env.alloc.z)
  {
    ret, R' := PlatformHwAccelFailed, R;
    var c3 := PointAdd(curve, a.q1x, a.q1y, a.q2x, a.q2y);
    var o3 := env.hw(c3);
    trace' := Then(trace, Invoke(c3, o3.ok));
    a' := a.(q1x := Fit(o3.x, wl, 0), q1y := Fit(o3.y, wl, 0));
    if o3.ok {
      var x;
      x, trace' := LoadInto(R.x, a'.q1x, env.alloc.x, CoordX, trace');
      var y;
      y, trace' := LoadInto(R.y, a'.q1y, env.alloc.y, CoordY, trace');
      var z;
      z, trace' := SetInto(R.z, 1, env.alloc.z, CoordZ, trace');
      ret, R' := Ok, Point(x, y, z);
    }
  }

  /** What muladd does while it holds the lock. */
  method Products(env: Env, curve: EccpCurve, wl: nat, R: Point, m: Mpi, n: Mpi, a: Arrays, trace: seq<Event>)
    returns (ret: Status, R': Point, trace': seq<Event>, a': Arrays)
    requires Run(trace) == Held
    ensures Run(trace') == Held && Acquires(trace') == Acquires(trace) && Releases(trace') == Releases(trace)
    ensures Staged(trace') == Staged(trace) + {Ms} && Keeps(a, a', [Ms, Q1x, Q1y, Q2x, Q2y])
    ensures Calls(trace') == Calls(trace) + ProductCalls(env, curve, wl, m, n, a)
    ensures ret == Ok <==>
              var calls := ProductCalls(env, curve, wl, m, n, a);
              |calls| == 3 && env.hw(calls[2]).ok
    ensures ret != Ok ==> ret == PlatformHwAccelFailed && R' == R
    ensures ret == Ok ==>
              var out := env.hw(ProductCalls(env, curve, wl, m, n, a)[2]);
              && a'.q1x == Fit(out.x, wl, 0) && a'.q1y == Fit(out.y, wl, 0)
              && LoadedFrom(R.x, R'.x, a'.q1x, env.alloc.x)
              && LoadedFrom(R.y, R'.y, a'.q1y, env.alloc.y)
              && SetFrom(R.z, R'.z, 1, env.alloc.z)
  {
    ghost var calls := ProductCalls(env, curve, wl, m, n, a);
    ret, R' := PlatformHwAccelFailed, R;
    var ms;
    ms, trace' := StageInto(m, a.ms, Ms, trace);
    var c1 := PointMul(curve, ms, a.q1x, a.q1y);
    var o1 := env.hw(c1);
    trace' := Then(trace', Invoke(c1, o1.ok));
    a' := a.(ms := ms, q1x := Fit(o1.x, wl, 0), q1y := Fit(o1.y, wl, 0));
    if o1.ok {
      ms, trace' := StageInto(n, ms, Ms, trace');
      var c2 := PointMul(curve, ms, a'.q2x, a'.q2y);
      var o2 := env.hw(c2);
      trace' := Then(trace', Invoke(c2, o2.ok));
      a' := a'.(ms := ms, q2x := Fit(o2.x, wl, 0), q2y := Fit(o2.y, wl, 0));
      if o2.ok {
        assert calls == [c1, c2, PointAdd(curve, a'.q1x, a'.q1y, a'.q2x, a'.q2y)];
        ret, R', trace', a' := AddAndLoad(env, curve, wl, R, a', trace');
      } else {
        assert calls == [c1, c2];
      }
    } else {
      assert calls == [c1];
    }
  }

  /** muladd's staging of P into Q1 and Q into Q2, before it takes the
      lock; t0 is the entry point's trace so far, in which nothing has
      happened yet. */
  method StageBoth(P: Point, Q: Point, a: Arrays, t0: seq<Event>) returns (staged: Arrays, trace: seq<Event>)
    requires Fresh(t0)
    ensures staged == StagePoints(P, Q, a)
    ensures Run(trace) == Free && Calls(trace) == [] && Acquires(trace) == 0 && Releases(trace) == 0
    ensures Staged(trace) == {Q1x, Q1y, Q2x, Q2y}
    // the four stagings, in the order of the C code, and nothing else
    ensures trace == t0 + [Stage(Q1x), Stage(Q1y), Stage(Q2x), Stage(Q2y)]
  {
    var q1x;
    q1x, trace := StageInto(P.x, a.q1x, Q1x, t0);
    var q1y;
    q1y, trace := StageInto(P.y, a.q1y, Q1y, trace);
    var q2x;
    q2x, trace := StageInto(Q.x, a.q2x, Q2x, trace);
    var q2y;
    q2y, trace := StageInto(Q.y, a.q2y, Q2y, trace);
    staged := a.(q1x := q1x, q1y := q1y, q2x := q2x, q2y := q2y);
  }

  /** The short-Weierstrass body of muladd, from staging to unlocking;
      t0 is the entry point's trace so far, in which nothing has happened yet. */
  method MuladdWeierstrass(env: Env, curve: EccpCurve, wl: nat, R: Point, m: Mpi, P: Point, n: Mpi, Q: Point,
                           a: Arrays, t0: seq<Event>)
    returns (ret: Status, R': Point, trace: seq<Event>, a': Arrays)
    requires Fresh(t0)
    ensures Disciplined(trace) && Acquires(trace) == 1
    ensures Staged(trace) == {Q1x, Q1y, Q2x, Q2y, Ms} && Keeps(a, a', [Ms, Q1x, Q1y, Q2x, Q2y])
    ensures Calls(trace) == MuladdCalls(env, curve, wl, m, P, n, Q, a)
    // success needs all three requests made and all three to succeed
    ensures ret == Ok <==> |Calls(trace)| == 3 && env.hw(Calls(trace)[2]).ok
    ensures ret != Ok ==> ret == PlatformHwAccelFailed && R' == R
    ensures ret == Ok ==>
              var out := env.hw(Calls(trace)[2]);
              && a'.q1x == Fit(out.x, wl, 0) && a'.q1y == Fit(out.y, wl, 0)
              && LoadedFrom(R.x, R'.x, a'.q1x, env.alloc.x)
              && LoadedFrom(R.y, R'.y, a'.q1y, env.alloc.y)
              && SetFrom(R.z, R'.z, 1, env.alloc.z)
  {
    var staged;
    staged, trace := StageBoth(P, Q, a, t0);
    trace := Then(trace, Acquire);
    ghost var calls := ProductCalls(env, curve, wl, m, n, staged);
    assert Calls(trace) == [];
    ret, R', trace, a' := Products(env, curve, wl, R, m, n, staged, trace);
    assert Calls(trace) == calls && Staged(trace) == {Q1x, Q1y, Q2x, Q2y, Ms};
    trace := Then(trace, Release);
  }

  /** muladd between its argument checks and the wiping of its arrays. */
  method MuladdDispatch(env: Env, g: Group, wl: nat, R: Point, m: Mpi, P: Point, n: Mpi, Q: Point, a: Arrays)
    returns (ret: Status, R': Point, trace: seq<Event>, a': Arrays)
    ensures Disciplined(trace) && Staged(trace) <= {Ms, Q1x, Q1y, Q2x, Q2y} && Keeps(a, a', [Ms, Q1x, Q1y, Q2x, Q2y])
    ensures WeierstrassCurve(g).None? ==>
              ret == PlatformFeatureUnsupported && R' == R && Calls(trace) == [] && Acquires(trace) == 0
              && a' == a
    ensures ret != Ok ==> R' == R
    ensures WeierstrassCurve(g).Some? ==>
              var calls := MuladdCalls(env, WeierstrassCurve(g).value, wl, m, P, n, Q, a);
              && Calls(trace) == calls && Acquires(trace) == 1
              && (ret == Ok <==> |calls| == 3 && env.hw(calls[2]).ok)
              && (ret != Ok ==> ret == PlatformHwAccelFailed)
              && (ret == Ok ==>
                    && a'.q1x == Fit(env.hw(calls[2]).x, wl, 0) && a'.q1y == Fit(env.hw(calls[2]).y, wl, 0)
                    && LoadedFrom(R.x, R'.x, a'.q1x, env.alloc.x)
                    && LoadedFrom(R.y, R'.y, a'.q1y, env.alloc.y)
                    && SetFrom(R.z, R'.z, 1, env.alloc.z))
  {
    ret, R', trace, a' := PlatformFeatureUnsupported, R, [], a;
    if GetType(g) == ShortWeierstrass {
      var curve := EccpCurveGet(g);
      if curve.Some? {
        ret, R', trace, a' := MuladdWeierstrass(env, curve.value, wl, R, m, P, n, Q, a, []);
      }
    }
  }

  predicate MuladdArgs(grp: Option<Group>, R: Option<Point>, m: Option<Mpi>, P: Option<Point>,
                       n: Option<Mpi>, Q: Option<Point>)
  {
    grp.Some? && R.Some? && m.Some? && P.Some? && n.Some? && Q.Some?
  }

  method Muladd(env: Env, grp: Option<Group>, R: Option<Point>, m: Option<Mpi>, P: Option<Point>,
                n: Option<Mpi>, Q: Option<Point>)
    returns (ret: Status, R': Option<Point>, trace: seq<Event>, bufs: Arrays)
    ensures !MuladdArgs(grp, R, m, P, n, Q) ==>
              ret == EcpBadInputData && R' == R && trace == [] && bufs == Undeclared
    ensures MuladdArgs(grp, R, m, P, n, Q) && WordLen(grp.value.pbits) > env.maxWords ==>
              ret == PlatformFeatureUnsupported && R' == R && trace == [] && bufs == Undeclared
    ensures MuladdArgs(grp, R, m, P, n, Q) && WordLen(grp.value.pbits) <= env.maxWords ==>
              && Wiped(bufs, [Ms, Q1x, Q1y, Q2x, Q2y], WordLen(grp.value.pbits))
              && Disciplined(trace)
              && EndsWithWipes(trace, [Ms, Q1x, Q1y, Q2x, Q2y])
              && WipedAfterStaging(trace)
              && R'.Some?
    // Montgomery groups, and groups with no record, are refused without the lock
    ensures MuladdArgs(grp, R, m, P, n, Q) && WordLen(grp.value.pbits) <= env.maxWords &&
            WeierstrassCurve(grp.value).None? ==>
              ret == PlatformFeatureUnsupported && R' == R && Calls(trace) == [] && Acquires(trace) == 0
    ensures MuladdArgs(grp, R, m, P, n, Q) && ret != Ok ==> R' == R
    ensures MuladdArgs(grp, R, m, P, n, Q) && WordLen(grp.value.pbits) <= env.maxWords &&
            WeierstrassCurve(grp.value).Some? ==>
              var wl := WordLen(grp.value.pbits);
              var calls := MuladdCalls(env, WeierstrassCurve(grp.value).value, wl, m.value, P.value, n.value, Q.value,
                                       Declare(env, [Ms, Q1x, Q1y, Q2x, Q2y], wl));
              && Calls(trace) == calls && Acquires(trace) == 1
              && (ret == Ok <==> |calls| == 3 && env.hw(calls[2]).ok)
              && (ret != Ok ==> ret == PlatformHwAccelFailed)
              && (ret == Ok ==>
                    && LoadedFrom(R.value.x, R'.value.x, Fit(env.hw(calls[2]).x, wl, 0), env.alloc.x)
                    && LoadedFrom(R.value.y, R'.value.y, Fit(env.hw(calls[2]).y, wl, 0), env.alloc.y)
                    && SetFrom(R.value.z, R'.value.z, 1, env.alloc.z))
  {
    if !MuladdArgs(grp, R, m, P, n, Q) {
      return EcpBadInputData, R, [], Undeclared;
    }
    var g := grp.value;
    var wl := WordLen(g.pbits);
    if wl > env.maxWords {
      return PlatformFeatureUnsupported, R, [], Undeclared;
    }
    var a := Declare(env, [Ms, Q1x, Q1y, Q2x, Q2y], wl);
    var p;
    ret, p, trace, a := MuladdDispatch(env, g, wl, R.value, m.value, P.value, n.value, Q.value, a);
    R' := Some(p);
    trace, bufs := WipeAll(trace, a, [Ms, Q1x, Q1y, Q2x, Q2y], wl);
  }
}
