/** What is in transient storage after a run: what was last written, as far as it has not been reverted. */
module TransientHistory {
  import opened JournalLog
  import opened EvmTypes
  import opened TransientLog

  /** The writes that still count, and those that counted when each open checkpoint was made. */
  datatype Trace = Trace(now: seq<TOp>, below: seq<seq<TOp>>)

  function TraceStep(t: Trace, op: TOp): Trace
    requires op.Close? || op.Back? ==> t.below != []
  {
    match op
    case Put(_, _, _) => t.(now := t.now + [op])
    case Open => t.(below := t.below + [t.now])
    case Close => t.(below := t.below[..|t.below| - 1])
    case Back => Trace(t.below[|t.below| - 1], t.below[..|t.below| - 1])
  }

  /** The index list starts with one entry, for the start of the log. */
  const START := Trace([], [[]])
  const FRESH := TLog(map[], [], [0])

  function RunTrace(ops: seq<TOp>): (r: Trace)
    requires Opened(ops) >= 0
    ensures |r.below| == 1 + Opened(ops)
  {
    if ops == [] then START else TraceStep(RunTrace(ops[..|ops| - 1]), ops[|ops| - 1])
  }

  /** The writes of a run that have not been reverted. */
  function Counting(ops: seq<TOp>): seq<TOp>
    requires Opened(ops) >= 0
  {
    RunTrace(ops).now
  }

  /** The value that was written last, and 32 zero bytes if none was. */
  function LastWritten(writes: seq<TOp>, addr: Address, key: Bytes): Bytes {
    if writes == [] then ZERO_WORD
    else
      var last := writes[|writes| - 1];
      if last.Put? && last.addr == addr && last.key == key then last.value
      else LastWritten(writes[..|writes| - 1], addr, key)
  }

  ghost predicate ReadsAs(m: SlotMap, writes: seq<TOp>) {
    forall addr, key :: Read(m, addr, key) == LastWritten(writes, addr, key)
  }

  ghost predicate Holds(s: TStack, t: Trace) {
    && ReadsAs(s.now, t.now) && |s.below| == |t.below|
    && forall i | 0 <= i < |s.below| :: ReadsAs(s.below[i], t.below[i])
  }

  lemma {:induction false} ReadsOneMore(m: SlotMap, writes: seq<TOp>, op: TOp)
    requires ReadsAs(m, writes) && op.Put?
    ensures ReadsAs(PutTransient(m, op.addr, op.key, op.value), writes + [op])
  {
    var all := writes + [op];
    assert all[..|all| - 1] == writes;
    forall addr, key
      ensures Read(PutTransient(m, op.addr, op.key, op.value), addr, key) == LastWritten(all, addr, key)
    {
      assert Read(m, addr, key) == LastWritten(writes, addr, key);
    }
  }

  lemma {:induction false} FreshHolds()
    ensures TGood(FRESH) && Holds(TView(FRESH), START)
  {
    assert Values(FRESH.storage) == map[];
  }

  lemma {:induction false} HoldsOn(t: TLog, trace: Trace, op: TOp)
    requires TGood(t) && Holds(TView(t), trace) && (op.Close? || op.Back? ==> t.indices != [])
    ensures op.Close? || op.Back? ==> trace.below != []
    ensures TGood(TStep(t, op)) && Holds(TView(TStep(t, op)), TraceStep(trace, op))
  {
    hide TGood, ReadsAs;
    assert |TView(t).below| == |t.indices|;
    match op {
      case Put(addr, key, value) =>
        TPutStep(t, addr, key, value);
        ReadsOneMore(TView(t).now, trace.now, op);
      case Open => TCheckpointStep(t);
      case Close => TCommitStep(t);
      case Back => TRevertStep(t);
    }
    hide TView, TPut, TCheckpoint, TCommit, TRevert;
  }

  lemma {:induction false} RunHolds(ops: seq<TOp>)
    requires Opened(ops) >= 0
    ensures TGood(TRun(FRESH, ops)) && Holds(TView(TRun(FRESH, ops)), RunTrace(ops))
  {
    if ops == [] {
      FreshHolds();
    } else {
      var init, op := ops[..|ops| - 1], ops[|ops| - 1];
      RunHolds(init);
      var t1, trace := TRun(FRESH, init), RunTrace(init);
      hide TGood, TView, Holds, TStep, TraceStep;
      HoldsOn(t1, trace, op);
    }
  }

  /** After any run that closes no more checkpoints than it opens, `get` returns, for every address and slot, what was
      written last by a `put` that has not been reverted. */
  lemma {:induction false} GetsLastWritten(ops: seq<TOp>, addr: Address, key: Bytes)
    requires Opened(ops) >= 0
    ensures Get(TRun(FRESH, ops).storage, addr, key) == LastWritten(Counting(ops), addr, key)
  {
    RunHolds(ops);
    ReadIsGet(TRun(FRESH, ops).storage, addr, key);
  }
}
