/** Which addresses and slots are warm after a run of the journal: those that some operation warmed which
    has not been reverted. */
module JournalHistory {
  import opened JournalLog

  /** The operations that still count, and for each open checkpoint those that counted when it was opened. */
  datatype Trace = Trace(now: seq<Op>, below: seq<seq<Op>>)

  const NOTHING := Trace([], [])

  /** A revert strikes out everything since its checkpoint, a commit nothing. */
  function TraceStep(t: Trace, op: Op): Trace
    requires Closes(op) ==> t.below != []
  {
    match op
    case Checkpoint => t.(below := t.below + [t.now])
    case Commit => t.(below := t.below[..|t.below| - 1])
    case Revert => Trace(t.below[|t.below| - 1], t.below[..|t.below| - 1])
    case _ => t.(now := t.now + [op])
  }

  function RunTrace(t: Trace, ops: seq<Op>): Trace
    requires Nested(ops, |t.below|)
    decreases |ops|
  {
    if ops == [] then t else RunTrace(TraceStep(t, ops[0]), ops[1..])
  }

  /** The operations of a run that have not been reverted. */
  function Counting(ops: seq<Op>): seq<Op>
    requires Nested(ops, 0)
  {
    RunTrace(NOTHING, ops).now
  }

  predicate Warms(op: Op, a: Address) {
    (op.WarmAddress? || op.WarmSlot?) && op.address == a
  }

  /** The warm map that operations build up. */
  function WarmOf(ops: seq<Op>): WarmMap {
    if ops == [] then map[]
    else
      var warm, op := WarmOf(ops[..|ops| - 1]), ops[|ops| - 1];
      match op
      case WarmAddress(a) => warm[a := SlotsOf(warm, a)]
      case WarmSlot(a, slot) => warm[a := SlotsOf(warm, a) + {slot}]
      case _ => warm
  }

  lemma {:induction false} WarmOfLast(before: seq<Op>, op: Op, a: Address, slot: Slot)
    ensures a in WarmOf(before + [op]) <==> a in WarmOf(before) || Warms(op, a)
    ensures slot in SlotsOf(WarmOf(before + [op]), a) <==> slot in SlotsOf(WarmOf(before), a) || op == WarmSlot(a, slot)
  {
    assert (before + [op])[..|before + [op]| - 1] == before;
  }

  predicate AnyWarms(ops: seq<Op>, a: Address) {
    exists i :: 0 <= i < |ops| && Warms(ops[i], a)
  }

  lemma {:induction false} AnyLast(before: seq<Op>, op: Op, a: Address)
    ensures AnyWarms(before + [op], a) <==> AnyWarms(before, a) || Warms(op, a)
  {
    hide Warms;
    if AnyWarms(before, a) {
      var i :| 0 <= i < |before| && Warms(before[i], a);
      assert (before + [op])[i] == before[i];
    }
    assert (before + [op])[|before|] == op;
  }

  lemma {:induction false} WarmOfExactly(ops: seq<Op>, a: Address, slot: Slot)
    ensures a in WarmOf(ops) <==> AnyWarms(ops, a)
    ensures slot in SlotsOf(WarmOf(ops), a) <==> WarmSlot(a, slot) in ops
  {
    if ops != [] {
      var before, op := ops[..|ops| - 1], ops[|ops| - 1];
      WarmOfExactly(before, a, slot);
      assert ops == before + [op];
      hide WarmOf, SlotsOf, AnyWarms, Warms;
      WarmOfLast(before, op, a, slot);
      AnyLast(before, op, a);
    }
  }

  /** The snapshots hold what the counting operations build up. */
  ghost predicate Holds(s: Stack, t: Trace) {
    && s.now.warm == WarmOf(t.now) && |s.below| == |t.below|
    && forall i | 0 <= i < |s.below| :: s.below[i].warm == WarmOf(t.below[i])
  }

  /** Building up one operation more. */
  lemma {:induction false} BuildsOn(s: Stack, ops: seq<Op>, op: Op)
    requires s.now.warm == WarmOf(ops) && (op.Touch? || op.WarmAddress? || op.WarmSlot?)
    ensures StackStep(s, op).now.warm == WarmOf(ops + [op])
  {
    assert (ops + [op])[..|ops + [op]| - 1] == ops;
  }

  lemma {:induction false} HoldsOn(s: Stack, t: Trace, op: Op)
    requires Holds(s, t) && (Closes(op) ==> s.below != [])
    ensures Holds(StackStep(s, op), TraceStep(t, op))
  {
    hide WarmOf;
    if op.Touch? || op.WarmAddress? || op.WarmSlot? {
      BuildsOn(s, t.now, op);
      assert StackStep(s, op).below == s.below;
    }
  }

  lemma {:induction false} RunHolds(s: Stack, t: Trace, ops: seq<Op>)
    requires Holds(s, t) && Nested(ops, |s.below|)
    ensures Holds(RunStack(s, ops), RunTrace(t, ops))
    decreases |ops|
  {
    if ops != [] {
      HoldsOn(s, t, ops[0]);
      SameDepth(s, t, ops[0]);
      hide StackStep, TraceStep, Holds, WarmOf;
      RunHolds(StackStep(s, ops[0]), TraceStep(t, ops[0]), ops[1..]);
    }
  }

  lemma {:induction false} SameDepth(s: Stack, t: Trace, op: Op)
    requires |s.below| == |t.below| && (Closes(op) ==> s.below != [])
    ensures |StackStep(s, op).below| == |TraceStep(t, op).below| == HeightAfter(op, |s.below|)
  {}

  /** After any well-nested run an address is warm exactly when an operation that has not been reverted warmed it
      or a slot of it, and a slot exactly when one warmed that slot. */
  lemma {:induction false} WarmExactly(ops: seq<Op>, a: Address, slot: Slot)
    requires Nested(ops, 0)
    ensures Good(FRESH)
    ensures var log, counting := RunLog(FRESH, ops), Counting(ops);
            && (a in log.warm <==> AnyWarms(counting, a))
            && (slot in SlotsOf(log.warm, a) <==> WarmSlot(a, slot) in counting)
  {
    RunRefines(FRESH, ops);
    RunHolds(View(FRESH), NOTHING, ops);
    WarmOfExactly(Counting(ops), a, slot);
  }

  // ---------------------------------------------------------------------------------------
  // Touched addresses
  // ---------------------------------------------------------------------------------------

  function TouchedIn(ops: seq<Op>): set<Address> {
    set op | op in ops && op.Touch? && op.address != RIPEMD160 :: op.address
  }

  /** The snapshots hold what the counting operations have touched; the sticky address is touched if any operation
      at all has touched it. */
  ghost predicate HoldsTouched(s: Stack, t: Trace, all: seq<Op>) {
    && s.now.touched == TouchedIn(t.now) && |s.below| == |t.below|
    && (forall i | 0 <= i < |s.below| :: s.below[i].touched == TouchedIn(t.below[i]))
    && (s.ripemdTouched <==> Touch(RIPEMD160) in all)
  }

  lemma {:induction false} TouchedOn(s: Stack, t: Trace, all: seq<Op>, op: Op)
    requires HoldsTouched(s, t, all) && (Closes(op) ==> s.below != [])
    ensures HoldsTouched(StackStep(s, op), TraceStep(t, op), all + [op])
  {
    if !Closes(op) && !op.Checkpoint? {
      assert TouchedIn(t.now + [op]) ==
             TouchedIn(t.now) + if op.Touch? && op.address != RIPEMD160 then {op.address} else {};
    }
  }

  lemma {:induction false} RunHoldsTouched(s: Stack, t: Trace, all: seq<Op>, ops: seq<Op>)
    requires HoldsTouched(s, t, all) && Nested(ops, |s.below|)
    ensures HoldsTouched(RunStack(s, ops), RunTrace(t, ops), all + ops)
    decreases |ops|
  {
    if ops == [] {
      assert all + ops == all;
    } else {
      TouchedOn(s, t, all, ops[0]);
      SameDepth(s, t, ops[0]);
      assert all + [ops[0]] + ops[1..] == all + ops;
      hide StackStep, TraceStep, HoldsTouched;
      RunHoldsTouched(StackStep(s, ops[0]), TraceStep(t, ops[0]), all + [ops[0]], ops[1..]);
    }
  }

  /** After any well-nested run an address is touched exactly when an operation that has not been reverted touched it;
      the sticky address when any operation ever did. */
  lemma {:induction false} TouchedExactly(ops: seq<Op>, a: Address)
    requires Nested(ops, 0)
    ensures a in RunLog(FRESH, ops).touched <==> Touch(a) in if a == RIPEMD160 then ops else Counting(ops)
  {
    RunRefines(FRESH, ops);
    RunHoldsTouched(View(FRESH), NOTHING, [], ops);
    assert [] + ops == ops;
    var log := RunLog(FRESH, ops);
    assert View(log) == RunStack(View(FRESH), ops);
    assert a in TouchedIn(Counting(ops)) <==> a != RIPEMD160 && Touch(a) in Counting(ops);
  }
}
