// The PKE accelerator as the bridge sees it: the calls it makes, the replies
// it gets, and the trace of lock and buffer events one entry point leaves.

module Pke {
  import opened Bytes
  import opened CurveTables

  /** One request to the accelerator, with the word arrays it is handed. */
  datatype HwCall =
    | PointVerify(curve: EccpCurve, x: seq<Limb>, y: seq<Limb>)
    | PointMul(curve: EccpCurve, k: seq<Limb>, x: seq<Limb>, y: seq<Limb>)
    | X25519Mul(mcurve: MontCurve, k: seq<Limb>, u: seq<Limb>)
    | PointAdd(curve: EccpCurve, x1: seq<Limb>, y1: seq<Limb>, x2: seq<Limb>, y2: seq<Limb>)

  /** Whether the accelerator reported PKE_SUCCESS, and the words it left in
      its output arrays (a verify call has none the bridge reads). */
  datatype HwReply = HwReply(ok: bool, x: seq<Limb>, y: seq<Limb>)

  /** The word arrays the entry points place on the stack. */
  datatype Buffer = Ms | Qx | Qy | Q1x | Q1y | Q2x | Q2y

  /** The coordinates of R an entry point writes. */
  datatype Coord = CoordX | CoordY | CoordZ

  /** What an entry point does, in order. */
  datatype Event =
    | Acquire                              // mbedtls_ecp_lock
    | Release                              // mbedtls_ecp_unlock
    | Invoke(call: HwCall, ok: bool)       // one pke_* call and its verdict
    | Stage(buffer: Buffer)                // an mpi written into a word array
    | Load(coord: Coord)                   // a coordinate of R written
    | Wipe(buffer: Buffer)                 // a word array cleared

  /** The hardware lock; `Broken` records a misuse and is never left. */
  datatype LockState = Free | Held | Broken

  /** The lock after one event: the lock is taken only when free, released
      only when held, and the accelerator is driven only while it is held. */
  function Step(s: LockState, e: Event): (r: LockState)
    ensures s == Broken ==> r == Broken
    ensures e.Acquire? ==> (r == Held <==> s == Free)
    ensures e.Release? ==> (r == Free <==> s == Held)
    ensures e.Invoke? ==> (r != Broken <==> s == Held)
    ensures !e.Acquire? && !e.Release? && !e.Invoke? ==> r == s
    // every misuse breaks the lock, and nothing else does
    ensures r == Broken <==>
              || s == Broken
              || (e.Acquire? && s != Free)
              || (e.Release? && s != Held)
              || (e.Invoke? && s != Held)
  {
    match e
    case Acquire => if s == Free then Held else Broken
    case Release => if s == Held then Free else Broken
    case Invoke(_, _) => if s == Held then Held else Broken
    case _ => s
  }

  /** The lock after a trace, starting free. */
  function Run(t: seq<Event>): LockState
  {
    if |t| == 0 then Free else Step(Run(t[..|t| - 1]), t[|t| - 1])
  }

  /** The accelerator calls of a trace, in order. */
  function Calls(t: seq<Event>): seq<HwCall>
  {
    if |t| == 0 then []
    else Calls(t[..|t| - 1]) + (if t[|t| - 1].Invoke? then [t[|t| - 1].call] else [])
  }

  /** How often a trace takes the lock. */
  function Acquires(t: seq<Event>): nat
  {
    if |t| == 0 then 0 else Acquires(t[..|t| - 1]) + (if t[|t| - 1].Acquire? then 1 else 0)
  }

  /** How often a trace releases the lock. */
  function Releases(t: seq<Event>): nat
  {
    if |t| == 0 then 0 else Releases(t[..|t| - 1]) + (if t[|t| - 1].Release? then 1 else 0)
  }

  /** The arrays a trace stages operands into. */
  function Staged(t: seq<Event>): set<Buffer>
  {
    if |t| == 0 then {}
    else Staged(t[..|t| - 1]) + (if t[|t| - 1].Stage? then {t[|t| - 1].buffer} else {})
  }

  /** Every array the trace stages an operand into is wiped later in it. */
  predicate WipedAfterStaging(t: seq<Event>)
  {
    forall i | 0 <= i < |t| && t[i].Stage? :: Wipe(t[i].buffer) in t[i + 1..]
  }

  /** A trace in which nothing has happened yet: the lock is free and there
      are no calls, acquisitions, releases or stagings. */
  predicate Fresh(t: seq<Event>)
  {
    Run(t) == Free && Calls(t) == [] && Acquires(t) == 0 && Releases(t) == 0 && Staged(t) == {}
  }

  /** A trace that uses the lock correctly and leaves it free. */
  predicate Disciplined(t: seq<Event>)
  {
    Run(t) == Free
  }

  /** A trace extended by one event, with what that does to the lock and the
      counts. */
  function Then(t: seq<Event>, e: Event): (r: seq<Event>)
    ensures r == t + [e]
    ensures Run(r) == Step(Run(t), e)
    ensures Calls(r) == Calls(t) + (if e.Invoke? then [e.call] else [])
    ensures Acquires(r) == Acquires(t) + (if e.Acquire? then 1 else 0)
    ensures Releases(r) == Releases(t) + (if e.Release? then 1 else 0)
    ensures Staged(r) == Staged(t) + (if e.Stage? then {e.buffer} else {})
  {
    assert (t + [e])[..|t|] == t;
    t + [e]
  }

  /** In a trace that never misuses the lock, every accelerator call happens
      while the lock is held, the lock is taken only when free (no nesting)
      and released only when held. */
  lemma {:induction false} InvokesUnderLock(t: seq<Event>)
    requires Run(t) != Broken
    ensures forall i | 0 <= i < |t| && t[i].Invoke? :: Run(t[..i]) == Held
    ensures forall i | 0 <= i < |t| && t[i].Acquire? :: Run(t[..i]) == Free
    ensures forall i | 0 <= i < |t| && t[i].Release? :: Run(t[..i]) == Held
  {
    if |t| > 0 {
      var p := t[..|t| - 1];
      assert Run(p) != Broken;
      InvokesUnderLock(p);
      forall i | 0 <= i < |t|
        ensures t[i].Invoke? ==> Run(t[..i]) == Held
        ensures t[i].Acquire? ==> Run(t[..i]) == Free
        ensures t[i].Release? ==> Run(t[..i]) == Held
      {
        if i < |t| - 1 {
          assert t[..i] == p[..i];
        } else {
          assert t[..i] == p;
        }
      }
    }
  }

  /** Staged collects the array of every Stage event. */
  lemma {:induction false} StagedAt(t: seq<Event>)
    ensures forall i | 0 <= i < |t| && t[i].Stage? :: t[i].buffer in Staged(t)
  {
    if |t| > 0 {
      var p := t[..|t| - 1];
      StagedAt(p);
      forall i | 0 <= i < |t| && t[i].Stage?
        ensures t[i].buffer in Staged(t)
      {
        if i < |t| - 1 {
          assert t[i] == p[i];
        }
      }
    }
  }

  /** A trace that never misuses the lock released it as often as it took
      it, or once less when it ends holding it. */
  lemma {:induction false} LockBalance(t: seq<Event>)
    requires Run(t) != Broken
    ensures Run(t) == Free ==> Acquires(t) == Releases(t)
    ensures Run(t) == Held ==> Acquires(t) == Releases(t) + 1
  {
    if |t| > 0 {
      var p := t[..|t| - 1];
      assert Run(p) != Broken;
      LockBalance(p);
    }
  }

  /** What every entry point's trace satisfies once its arrays exist: each
      accelerator call is made under the lock, the lock is never taken twice
      without a release in between, and it is released as often as taken. */
  lemma DisciplinedTrace(t: seq<Event>)
    requires Disciplined(t)
    ensures forall i | 0 <= i < |t| && t[i].Invoke? :: Run(t[..i]) == Held
    ensures forall i | 0 <= i < |t| && t[i].Acquire? :: Run(t[..i]) == Free
    ensures Acquires(t) == Releases(t)
  {
    InvokesUnderLock(t);
    LockBalance(t);
  }
}
