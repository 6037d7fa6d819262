/** The journal of warm and touched addresses (`packages/evm/src/journal.ts`) as a value: what each
    of its operations does to the flat list of height-tagged differences, and that this list is a
    stack of full snapshots. */
module JournalLog {
  type Address = string
  type Slot = string
  type WarmMap = map<Address, set<Slot>>

  const RIPEMD160 := "0000000000000000000000000000000000000003"

  /** What to take back: warm addresses, warm slots, touched addresses. */
  datatype Diff = Diff(addresses: set<Address>, slots: map<Address, set<Slot>>, touched: set<Address>)

  datatype Entry = Entry(height: int, diff: Diff)

  const NO_DIFF := Diff({}, map[], {})

  datatype Log = Log(warm: WarmMap, touched: set<Address>, diffs: seq<Entry>, height: int)

  // ---------------------------------------------------------------------------------------
  // Operations
  // ---------------------------------------------------------------------------------------

  const FRESH := Log(map[], {}, [Entry(0, NO_DIFF)], 0)

  function SlotsOf(m: map<Address, set<Slot>>, a: Address): set<Slot> {
    if a in m then m[a] else {}
  }

  function LastDiff(log: Log): Diff
    requires log.diffs != []
  {
    log.diffs[|log.diffs| - 1].diff
  }

  /** The list with its last difference replaced. */
  function Noted(diffs: seq<Entry>, d: Diff): seq<Entry>
    requires diffs != []
  {
    diffs[..|diffs| - 1] + [Entry(diffs[|diffs| - 1].height, d)]
  }

  function LogTouch(log: Log, a: Address): Log
    requires log.diffs != []
  {
    if a in log.touched then log
    else
      var d := LastDiff(log);
      log.(touched := log.touched + {a}, diffs := Noted(log.diffs, d.(touched := d.touched + {a})))
  }

  function LogWarmAddress(log: Log, a: Address): (r: Log)
    requires log.diffs != []
    ensures a in r.warm && r.diffs != []
  {
    if a in log.warm then log
    else
      var d := LastDiff(log);
      log.(warm := log.warm[a := {}], diffs := Noted(log.diffs, d.(addresses := d.addresses + {a})))
  }

  function LogWarmSlot(log: Log, a: Address, s: Slot): Log
    requires log.diffs != []
  {
    var log := LogWarmAddress(log, a);
    if s in log.warm[a] then log
    else
      var d := LastDiff(log);
      log.(warm := log.warm[a := log.warm[a] + {s}],
           diffs := Noted(log.diffs, d.(slots := d.slots[a := SlotsOf(d.slots, a) + {s}])))
  }

  function LogCheckpoint(log: Log): Log {
    log.(diffs := log.diffs + [Entry(log.height + 1, NO_DIFF)], height := log.height + 1)
  }

  function LogCommit(log: Log): Log {
    log.(diffs := log.diffs + [Entry(log.height - 1, NO_DIFF)], height := log.height - 1)
  }

  /** Taking one difference back: whole addresses first, then single slots. */
  function Undo(d: Diff, warm: WarmMap): WarmMap {
    map a | a in warm && a !in d.addresses :: warm[a] - SlotsOf(d.slots, a)
  }

  /** Taking back, from the end, every difference of height `h` or above that is not below a lower one. */
  function Rewound(diffs: seq<Entry>, h: int, warm: WarmMap): WarmMap {
    if diffs == [] || diffs[|diffs| - 1].height < h then warm
    else Rewound(diffs[..|diffs| - 1], h, Undo(diffs[|diffs| - 1].diff, warm))
  }

  function TouchedSince(diffs: seq<Entry>, h: int): set<Address> {
    if diffs == [] || diffs[|diffs| - 1].height < h then {}
    else TouchedSince(diffs[..|diffs| - 1], h) + diffs[|diffs| - 1].diff.touched
  }

  /** Where the loop of `revert` stops: at the last lower entry, or at the very first one. */
  function FinalI(diffs: seq<Entry>, h: int): (i: nat)
    requires diffs != []
    ensures i < |diffs|
  {
    if |diffs| == 1 || diffs[|diffs| - 1].height < h then |diffs| - 1
    else FinalI(diffs[..|diffs| - 1], h)
  }

  function LogRevert(log: Log): Log
    requires log.diffs != []
  {
    Log(Rewound(log.diffs, log.height, log.warm),
        log.touched - (TouchedSince(log.diffs, log.height) - {RIPEMD160}),
        log.diffs[..FinalI(log.diffs, log.height) + 1],
        log.height - 1)
  }

  // ---------------------------------------------------------------------------------------
  // Reachable logs
  // ---------------------------------------------------------------------------------------

  /** Heights start at 0, are never negative, and change by one from entry to entry. */
  predicate Stepwise(diffs: seq<Entry>) {
    && diffs != [] && diffs[0].height == 0
    && (forall i | 0 <= i < |diffs| :: diffs[i].height >= 0)
    && forall i | 1 <= i < |diffs| ::
         diffs[i].height == diffs[i - 1].height + 1 || diffs[i].height == diffs[i - 1].height - 1
  }

  predicate Good(log: Log) {
    Stepwise(log.diffs) && log.diffs[|log.diffs| - 1].height == log.height
  }

  // ---------------------------------------------------------------------------------------
  // The stack of snapshots
  // ---------------------------------------------------------------------------------------

  /** Everything a revert brings back; the sticky address is not part of it. */
  datatype Snap = Snap(warm: WarmMap, touched: set<Address>)

  /** What a log has to behave like. */
  datatype Stack = Stack(now: Snap, below: seq<Snap>, ripemdTouched: bool)

  ghost function SnapAt(log: Log, h: int): Snap {
    Snap(Rewound(log.diffs, h, log.warm), log.touched - TouchedSince(log.diffs, h) - {RIPEMD160})
  }

  /** The stack a log stands for: each open checkpoint is what rewinding to it would give. */
  ghost function View(log: Log): (r: Stack)
    requires log.height >= 0
    ensures |r.below| == log.height
  {
    Stack(Snap(log.warm, log.touched - {RIPEMD160}), seq(log.height, i => SnapAt(log, i + 1)),
          RIPEMD160 in log.touched)
  }

  datatype Op = Touch(address: Address) | WarmAddress(address: Address) | WarmSlot(address: Address, slot: Slot)
              | Checkpoint | Commit | Revert

  function LogStep(log: Log, op: Op): Log
    requires log.diffs != []
  {
    match op
    case Touch(a) => LogTouch(log, a)
    case WarmAddress(a) => LogWarmAddress(log, a)
    case WarmSlot(a, s) => LogWarmSlot(log, a, s)
    case Checkpoint => LogCheckpoint(log)
    case Commit => LogCommit(log)
    case Revert => LogRevert(log)
  }

  predicate Closes(op: Op) {
    op.Commit? || op.Revert?
  }

  ghost function StackStep(s: Stack, op: Op): Stack
    requires Closes(op) ==> s.below != []
  {
    match op
    case Touch(a) =>
      if a == RIPEMD160 then s.(ripemdTouched := true) else s.(now := s.now.(touched := s.now.touched + {a}))
    case WarmAddress(a) => s.(now := s.now.(warm := s.now.warm[a := SlotsOf(s.now.warm, a)]))
    case WarmSlot(a, slot) => s.(now := s.now.(warm := s.now.warm[a := SlotsOf(s.now.warm, a) + {slot}]))
    case Checkpoint => s.(below := s.below + [s.now])
    case Commit => s.(below := s.below[..|s.below| - 1])
    case Revert => s.(now := s.below[|s.below| - 1], below := s.below[..|s.below| - 1])
  }

  // ---------------------------------------------------------------------------------------
  // One step
  // ---------------------------------------------------------------------------------------

  /** What an entry says, and a changed last entry, only shows in the last undo. */
  lemma {:induction false} RewoundLast(diffs: seq<Entry>, d: Diff, h: int, warm: WarmMap)
    requires diffs != [] && diffs[|diffs| - 1].height >= h
    ensures Rewound(Noted(diffs, d), h, warm) == Rewound(diffs[..|diffs| - 1], h, Undo(d, warm))
    ensures TouchedSince(Noted(diffs, d), h) == TouchedSince(diffs[..|diffs| - 1], h) + d.touched
  {
    assert Noted(diffs, d)[..|diffs| - 1] == diffs[..|diffs| - 1];
  }

  lemma {:induction false} StepwiseNoted(diffs: seq<Entry>, d: Diff)
    requires Stepwise(diffs)
    ensures Stepwise(Noted(diffs, d)) && Noted(diffs, d)[|diffs| - 1].height == diffs[|diffs| - 1].height
  {}

  /** A note in the last difference that undoes exactly what was changed leaves every snapshot alone. */
  lemma {:induction false} NoteKeepsSnaps(log: Log, d: Diff, warm: WarmMap, touched: set<Address>)
    requires Good(log)
    requires Undo(d, warm) == Undo(LastDiff(log), log.warm)
    requires touched - d.touched - {RIPEMD160} == log.touched - LastDiff(log).touched - {RIPEMD160}
    ensures var log' := Log(warm, touched, Noted(log.diffs, d), log.height);
            Good(log') && View(log').below == View(log).below
  {
    var log' := Log(warm, touched, Noted(log.diffs, d), log.height);
    StepwiseNoted(log.diffs, d);
    forall h | 1 <= h <= log.height ensures SnapAt(log', h) == SnapAt(log, h) {
      RewoundLast(log.diffs, d, h, warm);
      RewoundLast(log.diffs, LastDiff(log), h, log.warm);
      assert Noted(log.diffs, LastDiff(log)) == log.diffs;
      TakeBoth(touched, TouchedSince(log.diffs[..|log.diffs| - 1], h), d.touched);
      TakeBoth(log.touched, TouchedSince(log.diffs[..|log.diffs| - 1], h), LastDiff(log).touched);
    }
  }

  lemma {:induction false} TakeBoth(all: set<Address>, a: set<Address>, b: set<Address>)
    ensures all - (a + b) - {RIPEMD160} == (all - b - {RIPEMD160}) - a
  {}

  lemma {:induction false} TouchStep(log: Log, a: Address)
    requires Good(log)
    ensures Good(LogTouch(log, a)) && View(LogTouch(log, a)) == StackStep(View(log), Touch(a))
  {
    if a !in log.touched {
      var d := LastDiff(log);
      NoteKeepsSnaps(log, d.(touched := d.touched + {a}), log.warm, log.touched + {a});
      assert (log.touched + {a}) - {RIPEMD160} ==
             if a == RIPEMD160 then log.touched - {RIPEMD160} else (log.touched - {RIPEMD160}) + {a};
    } else if a != RIPEMD160 {
      assert (log.touched - {RIPEMD160}) + {a} == log.touched - {RIPEMD160};
    }
  }

  lemma {:induction false} WarmAddressStep(log: Log, a: Address)
    requires Good(log)
    ensures Good(LogWarmAddress(log, a)) && View(LogWarmAddress(log, a)) == StackStep(View(log), WarmAddress(a))
  {
    if a !in log.warm {
      var d := LastDiff(log);
      NoteKeepsSnaps(log, d.(addresses := d.addresses + {a}), log.warm[a := {}], log.touched);
    }
  }

  lemma {:induction false} UndoSlot(d: Diff, warm: WarmMap, a: Address, s: Slot)
    requires a in warm && s !in warm[a]
    ensures Undo(d.(slots := d.slots[a := SlotsOf(d.slots, a) + {s}]), warm[a := warm[a] + {s}]) == Undo(d, warm)
  {
    assert (warm[a] + {s}) - (SlotsOf(d.slots, a) + {s}) == warm[a] - SlotsOf(d.slots, a);
  }

  lemma {:induction false} WarmSlotStep(log: Log, a: Address, s: Slot)
    requires Good(log)
    ensures Good(LogWarmSlot(log, a, s)) && View(LogWarmSlot(log, a, s)) == StackStep(View(log), WarmSlot(a, s))
  {
    WarmAddressStep(log, a);
    var log1 := LogWarmAddress(log, a);
    if s !in log1.warm[a] {
      var d := LastDiff(log1);
      UndoSlot(d, log1.warm, a, s);
      NoteKeepsSnaps(log1, d.(slots := d.slots[a := SlotsOf(d.slots, a) + {s}]), log1.warm[a := log1.warm[a] + {s}],
                     log1.touched);
    } else {
      assert SlotsOf(log.warm, a) + {s} == SlotsOf(log.warm, a);
    }
  }

  lemma {:induction false} UndoNothing(warm: WarmMap)
    ensures Undo(NO_DIFF, warm) == warm
  {
    forall a | a in warm ensures Undo(NO_DIFF, warm)[a] == warm[a] {
      assert warm[a] - {} == warm[a];
    }
  }

  /** An empty difference on top does not show. */
  lemma {:induction false} PushStep(log: Log, height: int)
    requires Good(log) && height >= 0 && (height == log.height + 1 || height == log.height - 1)
    ensures var log' := Log(log.warm, log.touched, log.diffs + [Entry(height, NO_DIFF)], height);
            && Good(log')
            && forall h | 1 <= h <= height ::
                 SnapAt(log', h) == if h <= log.height then SnapAt(log, h) else View(log).now
  {
    var diffs := log.diffs + [Entry(height, NO_DIFF)];
    assert diffs[..|diffs| - 1] == log.diffs;
    UndoNothing(log.warm);
    var log' := Log(log.warm, log.touched, diffs, height);
    forall h | 1 <= h <= height ensures SnapAt(log', h) == if h <= log.height then SnapAt(log, h) else View(log).now {
      assert Rewound(diffs, h, log.warm) == Rewound(log.diffs, h, Undo(NO_DIFF, log.warm));
      assert TouchedSince(diffs, h) == TouchedSince(log.diffs, h);
    }
  }

  lemma {:induction false} CheckpointStep(log: Log)
    requires Good(log)
    ensures Good(LogCheckpoint(log)) && View(LogCheckpoint(log)) == StackStep(View(log), Checkpoint)
  {
    PushStep(log, log.height + 1);
  }

  lemma {:induction false} CommitStep(log: Log)
    requires Good(log) && log.height >= 1
    ensures Good(LogCommit(log)) && View(LogCommit(log)) == StackStep(View(log), Commit)
  {
    PushStep(log, log.height - 1);
  }

  lemma {:induction false} FinalHeight(diffs: seq<Entry>, h: int)
    requires Stepwise(diffs) && 1 <= h <= diffs[|diffs| - 1].height
    ensures var kept := diffs[..FinalI(diffs, h) + 1];
            Stepwise(kept) && kept[|kept| - 1].height == h - 1
  {
    var init := diffs[..|diffs| - 1];
    if init[|init| - 1].height >= h {
      FinalHeight(init, h);
      assert init[..FinalI(init, h) + 1] == diffs[..FinalI(diffs, h) + 1];
    }
  }

  /** Rewinding in two steps is rewinding in one. */
  lemma {:induction false} RewindFurther(diffs: seq<Entry>, h: int, l: int, warm: WarmMap)
    requires Stepwise(diffs) && 1 <= l <= h <= diffs[|diffs| - 1].height
    ensures var kept := diffs[..FinalI(diffs, h) + 1];
            && Rewound(kept, l, Rewound(diffs, h, warm)) == Rewound(diffs, l, warm)
            && TouchedSince(kept, l) + TouchedSince(diffs, h) == TouchedSince(diffs, l)
  {
    var init, last := diffs[..|diffs| - 1], diffs[|diffs| - 1];
    assert FinalI(diffs, h) == FinalI(init, h);
    if init[|init| - 1].height >= h {
      RewindFurther(init, h, l, Undo(last.diff, warm));
      assert init[..FinalI(init, h) + 1] == diffs[..FinalI(diffs, h) + 1];
    } else {
      assert diffs[..FinalI(diffs, h) + 1] == init;
    }
  }

  lemma {:induction false} RevertStep(log: Log)
    requires Good(log) && log.height >= 1
    ensures Good(LogRevert(log)) && View(LogRevert(log)) == StackStep(View(log), Revert)
  {
    var log' := LogRevert(log);
    FinalHeight(log.diffs, log.height);
    assert log'.touched - {RIPEMD160} == log.touched - TouchedSince(log.diffs, log.height) - {RIPEMD160};
    forall h | 1 <= h < log.height ensures SnapAt(log', h) == SnapAt(log, h) {
      RewindFurther(log.diffs, log.height, h, log.warm);
      assert log'.touched - TouchedSince(log'.diffs, h) - {RIPEMD160} ==
             log.touched - TouchedSince(log.diffs, h) - {RIPEMD160};
    }
    assert RIPEMD160 in log'.touched <==> RIPEMD160 in log.touched;
  }

  /** What a revert brings back. */
  lemma {:induction false} RevertedTo(log: Log)
    requires Good(log) && log.height >= 1
    ensures var saved := View(log).below[log.height - 1];
            LogRevert(log).warm == saved.warm && LogRevert(log).touched == saved.touched + (log.touched * {RIPEMD160})
  {
    var since := TouchedSince(log.diffs, log.height);
    forall x ensures x in log.touched - (since - {RIPEMD160}) <==>
                     x in (log.touched - since - {RIPEMD160}) + (log.touched * {RIPEMD160})
    {
      assert x in {RIPEMD160} <==> x == RIPEMD160;
    }
  }

  /** Every operation on the list is the operation on the stack of snapshots. */
  lemma {:induction false} StepRefines(log: Log, op: Op)
    requires Good(log) && (Closes(op) ==> log.height >= 1)
    ensures Good(LogStep(log, op)) && View(LogStep(log, op)) == StackStep(View(log), op)
    ensures LogStep(log, op).height == HeightAfter(op, log.height)
  {
    match op
    case Touch(a) => TouchStep(log, a);
    case WarmAddress(a) => WarmAddressStep(log, a);
    case WarmSlot(a, s) => WarmSlotStep(log, a, s);
    case Checkpoint => CheckpointStep(log);
    case Commit => CommitStep(log);
    case Revert => RevertStep(log);
  }

  // ---------------------------------------------------------------------------------------
  // Runs
  // ---------------------------------------------------------------------------------------

  /** The depth after a run, and no operation closes more than was inside from `depth` on. */
  predicate Nested(ops: seq<Op>, depth: nat) {
    ops == [] ||
    match ops[0]
    case Checkpoint => Nested(ops[1..], depth + 1)
    case Commit => depth >= 1 && Nested(ops[1..], depth - 1)
    case Revert => depth >= 1 && Nested(ops[1..], depth - 1)
    case _ => Nested(ops[1..], depth)
  }

  function DepthAfter(ops: seq<Op>, depth: int): int {
    if ops == [] then depth
    else DepthAfter(ops[1..], HeightAfter(ops[0], depth))
  }

  function HeightAfter(op: Op, height: int): int {
    if op.Checkpoint? then height + 1 else if Closes(op) then height - 1 else height
  }

  ghost function RunLog(log: Log, ops: seq<Op>): Log
    requires Good(log) && Nested(ops, log.height)
    decreases |ops|
  {
    if ops == [] then log
    else
      StepRefines(log, ops[0]);
      RunLog(LogStep(log, ops[0]), ops[1..])
  }

  ghost function RunStack(s: Stack, ops: seq<Op>): Stack
    requires Nested(ops, |s.below|)
    decreases |ops|
  {
    if ops == [] then s else RunStack(StackStep(s, ops[0]), ops[1..])
  }

  /** Every well-nested run of the list is the run of the stack. */
  lemma {:induction false} RunRefines(log: Log, ops: seq<Op>)
    requires Good(log) && Nested(ops, log.height)
    ensures Good(RunLog(log, ops)) && View(RunLog(log, ops)) == RunStack(View(log), ops)
    ensures RunLog(log, ops).height == DepthAfter(ops, log.height)
    decreases |ops|
  {
    hide StackStep, LogStep;
    if ops != [] {
      StepRefines(log, ops[0]);
      RunRefines(LogStep(log, ops[0]), ops[1..]);
    }
  }

  /** A run that never closes what was open before it leaves those snapshots alone. */
  lemma {:induction false} RunKeepsBelow(s: Stack, ops: seq<Op>, depth: nat)
    requires depth <= |s.below| && Nested(ops, |s.below| - depth) && Nested(ops, |s.below|)
    ensures var s' := RunStack(s, ops);
            && |s'.below| == DepthAfter(ops, |s.below|) >= depth
            && s'.below[..depth] == s.below[..depth]
            && (s.ripemdTouched ==> s'.ripemdTouched)
    decreases |ops|
  {
    if ops != [] {
      RunKeepsBelow(StackStep(s, ops[0]), ops[1..], depth);
    }
  }

  lemma {:induction false} DeeperIsNested(ops: seq<Op>, depth: nat, more: nat)
    requires Nested(ops, depth)
    ensures Nested(ops, depth + more)
    ensures DepthAfter(ops, depth + more) == DepthAfter(ops, depth) + more
  {
    if ops != [] {
      match ops[0]
      case Checkpoint => DeeperIsNested(ops[1..], depth + 1, more);
      case Commit => DeeperIsNested(ops[1..], depth - 1, more);
      case Revert => DeeperIsNested(ops[1..], depth - 1, more);
      case _ => DeeperIsNested(ops[1..], depth, more);
    }
  }

  /** A balanced run: it closes what it opens and nothing else. */
  predicate Balanced(ops: seq<Op>) {
    Nested(ops, 0) && DepthAfter(ops, 0) == 0
  }

  /** A balanced run inside a new checkpoint leaves what is below alone, and the checkpoint open. */
  lemma {:induction false} BracketRun(log: Log, inner: seq<Op>)
    requires Good(log) && Balanced(inner)
    ensures Nested(inner, log.height + 1) && Good(LogCheckpoint(log))
    ensures var before := RunLog(LogCheckpoint(log), inner);
            && Good(before) && before.height == log.height + 1
            && View(before).below == View(log).below + [View(log).now]
            && (RIPEMD160 in log.touched ==> RIPEMD160 in before.touched)
  {
    hide RunLog, RunStack, SnapAt;
    CheckpointStep(log);
    var inside := LogCheckpoint(log);
    DeeperIsNested(inner, 0, log.height + 1);
    RunRefines(inside, inner);
    RunKeepsBelow(View(inside), inner, log.height + 1);
    var before := RunLog(inside, inner);
    assert View(before).below[..log.height + 1] == View(before).below;
    assert View(inside).below[..log.height + 1] == View(inside).below;
  }

  /** After a checkpoint, any balanced run and a revert, everything is as it was, except that the
      sticky address may have become touched. In particular several closed checkpoints in between, at
      the same height, are taken back too. */
  lemma {:induction false} RevertRestores(log: Log, inner: seq<Op>)
    requires Good(log) && Balanced(inner)
    ensures Nested(inner, log.height + 1) && Good(LogCheckpoint(log))
    ensures var before := RunLog(LogCheckpoint(log), inner);
            && before.diffs != []
            && var after := LogRevert(before);
            && after.warm == log.warm
            && after.touched == log.touched + (before.touched * {RIPEMD160})
            && after.height == log.height && Good(after)
            && View(after).below == View(log).below
  {
    hide Nested, DepthAfter, RunLog, SnapAt, Rewound, TouchedSince;
    BracketRun(log, inner);
    var before := RunLog(LogCheckpoint(log), inner);
    RevertStep(before);
    assert (View(log).below + [View(log).now])[..log.height] == View(log).below;
    assert View(LogRevert(before)) == Stack(View(log).now, View(log).below, RIPEMD160 in before.touched);
    OnlySticky(log.touched, LogRevert(before).touched);
  }

  lemma {:induction false} OnlySticky(a: set<Address>, b: set<Address>)
    requires a - {RIPEMD160} == b - {RIPEMD160} && (RIPEMD160 in a ==> RIPEMD160 in b)
    ensures b == a + (b * {RIPEMD160})
  {
    forall x ensures x in b <==> x in a + (b * {RIPEMD160}) {
      assert x in a - {RIPEMD160} <==> x in b - {RIPEMD160};
    }
  }
}
