/** Transient storage (`packages/evm/src/transientStorage.ts`, EIP-1153) as a value: the change log, and
    that it is a stack of snapshots, as far as reading can tell. */
module TransientLog {
  import opened JournalLog
  import opened EvmTypes

  type SlotMap = map<(Address, Bytes), Bytes>
  type Storage = map<Address, map<Bytes, Bytes>>

  /** What a slot held before it was written. */
  datatype Change = Change(addr: Address, key: Bytes, prevValue: Bytes)

  datatype TLog = TLog(storage: Storage, changes: seq<Change>, indices: seq<nat>)

  // ---------------------------------------------------------------------------------------
  // Operations
  // ---------------------------------------------------------------------------------------

  /** `get`: a slot that is absent reads as 32 zero bytes. */
  function Get(storage: Storage, addr: Address, key: Bytes): Bytes {
    if addr in storage && key in storage[addr] then storage[addr][key] else ZERO_WORD
  }

  function Set(storage: Storage, addr: Address, key: Bytes, value: Bytes): Storage {
    storage[addr := (if addr in storage then storage[addr] else map[])[key := value]]
  }

  function TPut(t: TLog, addr: Address, key: Bytes, value: Bytes): TLog {
    t.(storage := Set(t.storage, addr, key, value),
       changes := t.changes + [Change(addr, key, Get(t.storage, addr, key))])
  }

  function TCheckpoint(t: TLog): TLog {
    t.(indices := t.indices + [|t.changes|])
  }

  function TCommit(t: TLog): TLog
    requires t.indices != []
  {
    t.(indices := t.indices[..|t.indices| - 1])
  }

  /** Undoing, from the end, every change from the `n`-th on. */
  function Undone(storage: Storage, changes: seq<Change>, n: nat): Storage
    decreases |changes|
  {
    if |changes| <= n then storage
    else
      var c := changes[|changes| - 1];
      Undone(Set(storage, c.addr, c.key, c.prevValue), changes[..|changes| - 1], n)
  }

  function TRevert(t: TLog): TLog
    requires t.indices != []
  {
    var last := t.indices[|t.indices| - 1];
    TLog(Undone(t.storage, t.changes, last), if last <= |t.changes| then t.changes[..last] else t.changes,
         t.indices[..|t.indices| - 1])
  }

  // ---------------------------------------------------------------------------------------
  // Snapshots
  // ---------------------------------------------------------------------------------------

  function Slots(storage: Storage): set<(Address, Bytes)> {
    set a, k | a in storage && k in storage[a] :: (a, k)
  }

  /** All that `get` can tell about a storage: the slots that do not read as zero. */
  function Values(storage: Storage): SlotMap {
    map p | p in Slots(storage) && storage[p.0][p.1] != ZERO_WORD :: storage[p.0][p.1]
  }

  ghost function Read(m: SlotMap, addr: Address, key: Bytes): Bytes {
    if (addr, key) in m then m[(addr, key)] else ZERO_WORD
  }

  lemma {:induction false} ReadIsGet(storage: Storage, addr: Address, key: Bytes)
    ensures Read(Values(storage), addr, key) == Get(storage, addr, key)
  {
    assert (addr, key) in Slots(storage) <==> addr in storage && key in storage[addr];
  }

  /** Writing a storage is writing its values. */
  lemma {:induction false} SetValues(storage: Storage, addr: Address, key: Bytes, value: Bytes)
    ensures Values(Set(storage, addr, key, value)) == PutTransient(Values(storage), addr, key, value)
  {
    var m, m' := PutTransient(Values(storage), addr, key, value), Values(Set(storage, addr, key, value));
    forall p: (Address, Bytes)
      ensures p in m <==> p in m'
      ensures p in m ==> m[p] == m'[p]
    {
      assert p == (p.0, p.1);
      ReadIsGet(storage, p.0, p.1);
      ReadIsGet(Set(storage, addr, key, value), p.0, p.1);
    }
  }

  /** Undoing a write. */
  lemma {:induction false} UndoSet(storage: Storage, addr: Address, key: Bytes, value: Bytes)
    ensures Values(Set(Set(storage, addr, key, value), addr, key, Get(storage, addr, key))) == Values(storage)
  {
    var prev := Get(storage, addr, key);
    SetValues(storage, addr, key, value);
    SetValues(Set(storage, addr, key, value), addr, key, prev);
    ReadIsGet(storage, addr, key);
    var m := Values(storage);
    assert PutTransient(PutTransient(m, addr, key, value), addr, key, prev) == m;
  }

  /** Checkpoints are at increasing places of the log. */
  predicate TGood(t: TLog) {
    && (forall i, j | 0 <= i < j < |t.indices| :: t.indices[i] <= t.indices[j])
    && (forall i | 0 <= i < |t.indices| :: t.indices[i] <= |t.changes|)
  }

  ghost function TSnapAt(t: TLog, i: nat): SlotMap
    requires i < |t.indices|
  {
    Values(Undone(t.storage, t.changes, t.indices[i]))
  }

  datatype TStack = TStack(now: SlotMap, below: seq<SlotMap>)

  ghost function TView(t: TLog): TStack {
    TStack(Values(t.storage), seq(|t.indices|, i requires 0 <= i < |t.indices| => TSnapAt(t, i)))
  }

  // ---------------------------------------------------------------------------------------
  // One step
  // ---------------------------------------------------------------------------------------

  /** The values after undoing only depend on the values before. */
  lemma {:induction false} UndoneValues(s: Storage, s': Storage, changes: seq<Change>, n: nat)
    requires Values(s) == Values(s')
    ensures Values(Undone(s, changes, n)) == Values(Undone(s', changes, n))
    decreases |changes|
  {
    if |changes| > n {
      var c := changes[|changes| - 1];
      SetValues(s, c.addr, c.key, c.prevValue);
      SetValues(s', c.addr, c.key, c.prevValue);
      UndoneValues(Set(s, c.addr, c.key, c.prevValue), Set(s', c.addr, c.key, c.prevValue), changes[..|changes| - 1],
                   n);
    }
  }

  lemma {:induction false} TPutStep(t: TLog, addr: Address, key: Bytes, value: Bytes)
    requires TGood(t)
    ensures var t' := TPut(t, addr, key, value);
            TGood(t') && TView(t') == TStack(PutTransient(TView(t).now, addr, key, value), TView(t).below)
  {
    var t' := TPut(t, addr, key, value);
    SetValues(t.storage, addr, key, value);
    UndoSet(t.storage, addr, key, value);
    var undone := Set(t'.storage, addr, key, Get(t.storage, addr, key));
    forall i | 0 <= i < |t.indices| ensures TSnapAt(t', i) == TSnapAt(t, i) {
      assert t'.changes[..|t'.changes| - 1] == t.changes;
      UndoneValues(undone, t.storage, t.changes, t.indices[i]);
    }
  }

  lemma {:induction false} TCheckpointStep(t: TLog)
    requires TGood(t)
    ensures TGood(TCheckpoint(t)) && TView(TCheckpoint(t)) == TStack(TView(t).now, TView(t).below + [TView(t).now])
  {}

  lemma {:induction false} TCommitStep(t: TLog)
    requires TGood(t) && t.indices != []
    ensures TGood(TCommit(t)) && TView(TCommit(t)) == TStack(TView(t).now, TView(t).below[..|t.indices| - 1])
  {}

  lemma {:induction false} UndoneFurther(s: Storage, changes: seq<Change>, n: nat, l: nat)
    requires l <= n <= |changes|
    ensures Undone(Undone(s, changes, n), changes[..n], l) == Undone(s, changes, l)
    decreases |changes|
  {
    if |changes| > n {
      var c, init := changes[|changes| - 1], changes[..|changes| - 1];
      UndoneFurther(Set(s, c.addr, c.key, c.prevValue), init, n, l);
      assert init[..n] == changes[..n];
    } else {
      assert changes[..n] == changes;
    }
  }

  lemma {:induction false} TRevertStep(t: TLog)
    requires TGood(t) && t.indices != []
    ensures TGood(TRevert(t))
    ensures TView(TRevert(t)) == TStack(TView(t).below[|t.indices| - 1], TView(t).below[..|t.indices| - 1])
  {
    hide Values, Undone;
    var t' := TRevert(t);
    forall i | 0 <= i < |t'.indices| ensures TSnapAt(t', i) == TSnapAt(t, i) {
      UndoneFurther(t.storage, t.changes, t.indices[|t.indices| - 1], t.indices[i]);
    }
  }

  // ---------------------------------------------------------------------------------------
  // Runs
  // ---------------------------------------------------------------------------------------

  datatype TOp = Put(addr: Address, key: Bytes, value: Bytes) | Open | Close | Back

  function TStep(t: TLog, op: TOp): TLog
    requires op.Close? || op.Back? ==> t.indices != []
  {
    match op
    case Put(addr, key, value) => TPut(t, addr, key, value)
    case Open => TCheckpoint(t)
    case Close => TCommit(t)
    case Back => TRevert(t)
  }

  /** The number of open checkpoints after a run, if it never closes more than it has opened. */
  function Opened(ops: seq<TOp>): int {
    if ops == [] then 0
    else
      var before := Opened(ops[..|ops| - 1]);
      if before < 0 then before
      else match ops[|ops| - 1] case Put(_, _, _) => before case Open => before + 1 case _ => before - 1
  }

  ghost function TRun(t: TLog, ops: seq<TOp>): (r: TLog)
    requires Opened(ops) >= 0
    ensures |r.indices| == |t.indices| + Opened(ops)
  {
    if ops == [] then t else TStep(TRun(t, ops[..|ops| - 1]), ops[|ops| - 1])
  }

  /** A run that only closes what it opens leaves all earlier checkpoints as they were. */
  lemma {:induction false} TRunKeepsBelow(t: TLog, ops: seq<TOp>)
    requires TGood(t) && Opened(ops) >= 0
    ensures TGood(TRun(t, ops)) && TView(TRun(t, ops)).below[..|t.indices|] == TView(t).below
  {
    if ops == [] {
      assert TView(t).below[..|t.indices|] == TView(t).below;
    } else {
      var init, op := ops[..|ops| - 1], ops[|ops| - 1];
      TRunKeepsBelow(t, init);
      var t1 := TRun(t, init);
      match op {
        case Put(addr, key, value) => TPutStep(t1, addr, key, value);
        case Open => TCheckpointStep(t1);
        case Close => TCommitStep(t1);
        case Back => TRevertStep(t1);
      }
    }
  }

  /** After a checkpoint, a well-nested run and a revert, every slot of every address reads as it did at
      the checkpoint, and so do all earlier checkpoints. */
  lemma {:induction false} TRevertRestores(t: TLog, inner: seq<TOp>, addr: Address, key: Bytes)
    requires TGood(t) && Opened(inner) == 0
    ensures var after := TRevert(TRun(TCheckpoint(t), inner));
            && TGood(after) && after.indices == t.indices
            && Get(after.storage, addr, key) == Get(t.storage, addr, key)
            && TView(after) == TView(t)
  {
    TCheckpointStep(t);
    var t1 := TCheckpoint(t);
    TRunKeepsBelow(t1, inner);
    var t2 := TRun(t1, inner);
    assert TView(t2).below[..|t1.indices|] == TView(t2).below;
    IndicesKept(t1, inner);
    TRevertStep(t2);
    var after := TRevert(t2);
    assert t1.indices[..|t.indices|] == t.indices;
    assert (TView(t).below + [TView(t).now])[..|t.indices|] == TView(t).below;
    ReadIsGet(after.storage, addr, key);
    ReadIsGet(t.storage, addr, key);
  }

  lemma {:induction false} IndicesKept(t: TLog, ops: seq<TOp>)
    requires Opened(ops) >= 0
    ensures TRun(t, ops).indices[..|t.indices|] == t.indices
  {
    if ops == [] {
      assert t.indices[..|t.indices|] == t.indices;
    } else {
      IndicesKept(t, ops[..|ops| - 1]);
    }
  }
}
