/** What is in the access witness after a run, and what the run has cost, in terms of the accesses alone. */
module VerkleHistory {
  import opened Wrappers
  import opened VerkleWitness

  // ---------------------------------------------------------------------------------------
  // Accesses
  // ---------------------------------------------------------------------------------------

  function Stems(ops: seq<Op>): set<Key> {
    set op | op in ops && op.Touch? :: StemOf(op.chunk)
  }

  function StemsWritten(ops: seq<Op>): set<Key> {
    set op | op in ops && op.Touch? && op.isWrite :: StemOf(op.chunk)
  }

  function Chunks(ops: seq<Op>): set<Key> {
    set op | op in ops && op.Touch? :: op.chunk
  }

  function ChunksWritten(ops: seq<Op>): set<Key> {
    set op | op in ops && op.Touch? && op.isWrite :: op.chunk
  }

  lemma {:induction false} TogetherStems(a: seq<Op>, b: seq<Op>)
    ensures Stems(a + b) == Stems(a) + Stems(b) && StemsWritten(a + b) == StemsWritten(a) + StemsWritten(b)
    ensures Stems([]) == {} && StemsWritten([]) == {} && StemsWritten(a) <= Stems(a)
  {
    hide StemOf;
  }

  lemma {:induction false} TogetherChunks(a: seq<Op>, b: seq<Op>)
    ensures Chunks(a + b) == Chunks(a) + Chunks(b) && ChunksWritten(a + b) == ChunksWritten(a) + ChunksWritten(b)
    ensures Chunks([]) == {} && ChunksWritten([]) == {} && ChunksWritten(a) <= Chunks(a)
  {
  }

  /** The accesses that have been committed, those since the last commit or revert, and what was written and reverted
      when it was committed already. */
  datatype Trace = Trace(committed: seq<Op>, pending: seq<Op>, lateStems: set<Key>, lateChunks: set<Key>)

  function TraceStep(t: Trace, op: Op): Trace {
    match op
    case Touch(_, _, _, _) => t.(pending := t.pending + [op])
    case Commit => t.(committed := t.committed + t.pending, pending := [])
    case Revert => Trace(t.committed, [], t.lateStems + StemsWritten(t.pending) * Stems(t.committed),
                         t.lateChunks + ChunksWritten(t.pending) * Chunks(t.committed))
  }

  function TraceOf(ops: seq<Op>): Trace {
    if ops == [] then Trace([], [], {}, {}) else TraceStep(TraceOf(ops[..|ops| - 1]), ops[|ops| - 1])
  }

  /** The accesses that have not been reverted. */
  function Counting(ops: seq<Op>): seq<Op> {
    TraceOf(ops).committed + TraceOf(ops).pending
  }

  // ---------------------------------------------------------------------------------------
  // Keys and marks
  // ---------------------------------------------------------------------------------------

  /** The committed and the cached keys, of stems or of chunks, and which of them are marked as written. */
  datatype Part = Part(done: set<Key>, late: set<Key>, doneMarked: set<Key>, lateMarked: set<Key>)

  function StemPart(w: Witness): Part {
    Part(w.stems.Keys, w.stemCache.Keys, WrittenStems(w.stems), WrittenStems(w.stemCache))
  }

  function ChunkPart(w: Witness): Part {
    Part(w.chunks.Keys, w.chunkCache.Keys, WrittenChunks(w.chunks), WrittenChunks(w.chunkCache))
  }

  function PartTouched(p: Part, key: Key, isWrite: bool): Part {
    var marked := if isWrite then {key} else {};
    if key in p.done then p.(doneMarked := p.doneMarked + marked)
    else p.(late := p.late + {key}, lateMarked := p.lateMarked + marked)
  }

  function PartStep(p: Part, op: Op, key: Key): Part {
    match op
    case Touch(_, _, _, isWrite) => PartTouched(p, key, isWrite)
    case Commit => Part(p.done + p.late, {}, p.doneMarked + p.lateMarked, {})
    case Revert => p.(late := {}, lateMarked := {})
  }

  lemma {:induction false} TouchStemPart(w: Witness, stem: Key, chunk: Key, address: string, treeIndex: nat,
                                         isWrite: bool)
    requires Good(w)
    ensures StemPart(Touched(w, stem, chunk, address, treeIndex, isWrite)) == PartTouched(StemPart(w), stem, isWrite)
  {
    hide StemOf;
    Apart(w);
  }

  lemma {:induction false} TouchChunkPart(w: Witness, stem: Key, chunk: Key, address: string, treeIndex: nat,
                                          isWrite: bool)
    requires Good(w)
    ensures ChunkPart(Touched(w, stem, chunk, address, treeIndex, isWrite)) == PartTouched(ChunkPart(w), chunk, isWrite)
  {
    hide StemOf;
    Apart(w);
  }

  /** One operation, on the stems and on the chunks alike. */
  lemma {:induction false} StepParts(w: Witness, op: Op)
    requires Good(w)
    ensures var stem, chunk := if op.Touch? then StemOf(op.chunk) else [], if op.Touch? then op.chunk else [];
            StemPart(Step(w, op)) == PartStep(StemPart(w), op, stem)
            && ChunkPart(Step(w, op)) == PartStep(ChunkPart(w), op, chunk)
  {
    hide StemOf, Touched;
    match op
    case Touch(chunk, address, treeIndex, isWrite) =>
      TouchStemPart(w, StemOf(chunk), chunk, address, treeIndex, isWrite);
      TouchChunkPart(w, StemOf(chunk), chunk, address, treeIndex, isWrite);
    case _ =>
      WrittenStemsTogether(w.stems, w.stemCache);
      WrittenChunksTogether(w.chunks, w.chunkCache);
      assert WrittenStems(map[]) == {} && WrittenChunks(map[]) == {};
  }

  /** Committed keys are those of committed accesses; a mark outlives its revert on a committed key. */
  ghost predicate Fits(p: Part, c: set<Key>, cw: set<Key>, p': set<Key>, pw: set<Key>, late: set<Key>) {
    && p.done == c && p.late == p' - c
    && p.doneMarked == cw + late + pw * c && p.lateMarked == pw - c
  }

  lemma {:induction false} FitsTouched(p: Part, c: set<Key>, cw: set<Key>, p': set<Key>, pw: set<Key>, late: set<Key>,
                                       key: Key, isWrite: bool)
    requires Fits(p, c, cw, p', pw, late)
    ensures Fits(PartTouched(p, key, isWrite), c, cw, p' + {key}, pw + if isWrite then {key} else {}, late)
  {}

  lemma {:induction false} FitsCommitted(p: Part, c: set<Key>, cw: set<Key>, p': set<Key>, pw: set<Key>, late: set<Key>)
    requires Fits(p, c, cw, p', pw, late)
    ensures Fits(PartStep(p, Commit, []), c + p', cw + pw, {}, {}, late)
    ensures Fits(PartStep(p, Revert, []), c, cw, {}, {}, late + pw * c)
  {}

  ghost predicate StemsFit(w: Witness, t: Trace) {
    Fits(StemPart(w), Stems(t.committed), StemsWritten(t.committed), Stems(t.pending), StemsWritten(t.pending),
         t.lateStems)
  }

  ghost predicate ChunksFit(w: Witness, t: Trace) {
    Fits(ChunkPart(w), Chunks(t.committed), ChunksWritten(t.committed), Chunks(t.pending), ChunksWritten(t.pending),
         t.lateChunks)
  }

  lemma {:induction false} OneAccess(op: Op)
    requires op.Touch?
    ensures Stems([op]) == {StemOf(op.chunk)} && StemsWritten([op]) == if op.isWrite then {StemOf(op.chunk)} else {}
    ensures Chunks([op]) == {op.chunk} && ChunksWritten([op]) == if op.isWrite then {op.chunk} else {}
  {
    hide StemOf;
    assert op in [op];
  }

  lemma {:induction false} StemsFitOn(w: Witness, t: Trace, op: Op)
    requires Good(w) && StemsFit(w, t)
    ensures StemsFit(Step(w, op), TraceStep(t, op))
  {
    StepParts(w, op);
    hide Good, Step, Fits, PartTouched, Stems, StemsWritten, StemPart, StemOf;
    var c, cw, p, pw := Stems(t.committed), StemsWritten(t.committed), Stems(t.pending), StemsWritten(t.pending);
    if op.Touch? {
      OneAccess(op);
      TogetherStems(t.pending, [op]);
      FitsTouched(StemPart(w), c, cw, p, pw, t.lateStems, StemOf(op.chunk), op.isWrite);
    } else {
      TogetherStems(t.committed, t.pending);
      FitsCommitted(StemPart(w), c, cw, p, pw, t.lateStems);
    }
  }

  lemma {:induction false} ChunksFitOn(w: Witness, t: Trace, op: Op)
    requires Good(w) && ChunksFit(w, t)
    ensures ChunksFit(Step(w, op), TraceStep(t, op))
  {
    StepParts(w, op);
    hide Good, Step, Fits, PartTouched, Chunks, ChunksWritten, ChunkPart, StemOf;
    var c, cw, p, pw := Chunks(t.committed), ChunksWritten(t.committed), Chunks(t.pending), ChunksWritten(t.pending);
    if op.Touch? {
      OneAccess(op);
      TogetherChunks(t.pending, [op]);
      FitsTouched(ChunkPart(w), c, cw, p, pw, t.lateChunks, op.chunk, op.isWrite);
    } else {
      TogetherChunks(t.committed, t.pending);
      FitsCommitted(ChunkPart(w), c, cw, p, pw, t.lateChunks);
    }
  }

  lemma {:induction false} RunFits(ops: seq<Op>)
    ensures Good(Run(ops)) && StemsFit(Run(ops), TraceOf(ops)) && ChunksFit(Run(ops), TraceOf(ops))
  {
    ChargedIsCost(ops);
    if ops == [] {
      assert WrittenStems(map[]) == {} && WrittenChunks(map[]) == {};
      TogetherStems([], []);
      TogetherChunks([], []);
    } else {
      var before := ops[..|ops| - 1];
      RunFits(before);
      hide Good, StemsFit, ChunksFit, Step, TraceStep;
      StemsFitOn(Run(before), TraceOf(before), ops[|ops| - 1]);
      ChunksFitOn(Run(before), TraceOf(before), ops[|ops| - 1]);
    }
  }

  // ---------------------------------------------------------------------------------------
  // What the witness shows
  // ---------------------------------------------------------------------------------------

  lemma {:induction false} KeysOfRun(ops: seq<Op>)
    ensures var s, c, counting, t := StemPart(Run(ops)), ChunkPart(Run(ops)), Counting(ops), TraceOf(ops);
            && Good(Run(ops))
            && s.done + s.late == Stems(counting) && s.doneMarked + s.lateMarked == StemsWritten(counting) + t.lateStems
            && c.done + c.late == Chunks(counting)
            && c.doneMarked + c.lateMarked == ChunksWritten(counting) + t.lateChunks
  {
    RunFits(ops);
    var t := TraceOf(ops);
    TogetherStems(t.committed, t.pending);
    TogetherChunks(t.committed, t.pending);
    hide Good, Stems, StemsWritten, Chunks, ChunksWritten, Run, TraceOf, StemPart, ChunkPart;
  }

  /** After any run, with commits and reverts anywhere: a stem or a chunk is known exactly when an access that has not
      been reverted was to it, and it is marked as written exactly when such an access wrote it, or one that was
      reverted wrote it when it was committed already. */
  lemma {:induction false} WitnessExactly(ops: seq<Op>, key: Key)
    ensures var w, counting, t := Run(ops), Counting(ops), TraceOf(ops);
            && (FindStem(w, key).Some? <==> key in Stems(counting))
            && (FindStem(w, key).Some? && FindStem(w, key).value.write <==>
                  key in StemsWritten(counting) + t.lateStems)
            && (FindChunk(w, key).Some? <==> key in Chunks(counting))
            && (FindChunk(w, key).Some? && FindChunk(w, key).value.write <==>
                  key in ChunksWritten(counting) + t.lateChunks)
  {
    KeysOfRun(ops);
    var w := Run(ops);
    Apart(w);
    hide Good, Stems, StemsWritten, Chunks, ChunksWritten, Run, TraceOf, Counting, StemPart, ChunkPart, FindStem,
      FindChunk;
    StemFound(w, key);
    ChunkFound(w, key);
  }

  lemma {:induction false} StemFound(w: Witness, key: Key)
    requires key in w.stems ==> key !in w.stemCache
    ensures var p := StemPart(w);
            && (FindStem(w, key).Some? <==> key in p.done + p.late)
            && (FindStem(w, key).Some? && FindStem(w, key).value.write <==> key in p.doneMarked + p.lateMarked)
  {}

  lemma {:induction false} ChunkFound(w: Witness, key: Key)
    requires key in w.chunks ==> key !in w.chunkCache
    ensures var p := ChunkPart(w);
            && (FindChunk(w, key).Some? <==> key in p.done + p.late)
            && (FindChunk(w, key).Some? && FindChunk(w, key).value.write <==> key in p.doneMarked + p.lateMarked)
  {}

  /** Without reverts every access counts. */
  lemma {:induction false} AllCount(ops: seq<Op>)
    requires forall i | 0 <= i < |ops| :: !ops[i].Revert?
    ensures TraceOf(ops).lateStems == {} && TraceOf(ops).lateChunks == {}
    ensures forall op :: op in Counting(ops) <==> op in ops && op.Touch?
  {
    if ops != [] {
      var before, op := ops[..|ops| - 1], ops[|ops| - 1];
      AllCount(before);
      assert ops == before + [op];
    }
  }

  lemma {:induction false} SameKeys(ops: seq<Op>, others: seq<Op>)
    requires forall op :: op in others <==> op in ops && op.Touch?
    ensures Stems(ops) == Stems(others) && StemsWritten(ops) == StemsWritten(others)
    ensures Chunks(ops) == Chunks(others) && ChunksWritten(ops) == ChunksWritten(others)
  {
    hide StemOf;
  }

  /** Then every stem and every chunk is paid for once, and once more when it is first written (EIP-4762). */
  lemma {:induction false} RunCosts(ops: seq<Op>)
    requires forall i | 0 <= i < |ops| :: !ops[i].Revert?
    ensures Charged(ops) == 1900 * |Stems(ops)| + 3000 * |StemsWritten(ops)|
                            + 200 * |Chunks(ops)| + 500 * |ChunksWritten(ops)|
  {
    hide *;
    KeysOfRun(ops);
    AllCount(ops);
    SameKeys(ops, Counting(ops));
    ChargedIsCost(ops);
    CostsByKeys(Run(ops));
    assert StemsWritten(ops) + {} == StemsWritten(ops) && ChunksWritten(ops) + {} == ChunksWritten(ops);
  }

  lemma {:induction false} CostsByKeys(w: Witness)
    requires Good(w)
    ensures var s, c := StemPart(w), ChunkPart(w);
            Cost(w) == 1900 * |s.done + s.late| + 3000 * |s.doneMarked + s.lateMarked|
                       + 200 * |c.done + c.late| + 500 * |c.doneMarked + c.lateMarked|
  {
    WrittenStemsTogether(w.stems, w.stemCache);
    WrittenChunksTogether(w.chunks, w.chunkCache);
    DisjointSize(w.stems, w.stemCache, WrittenStems(w.stems), WrittenStems(w.stemCache));
    DisjointSize(w.chunks, w.chunkCache, WrittenChunks(w.chunks), WrittenChunks(w.chunkCache));
    hide Good, WrittenStems, WrittenChunks;
    assert |w.stems + w.stemCache| == |(w.stems + w.stemCache).Keys|;
    assert |w.chunks + w.chunkCache| == |(w.chunks + w.chunkCache).Keys|;
    assert (w.stems + w.stemCache).Keys == w.stems.Keys + w.stemCache.Keys;
    assert (w.chunks + w.chunkCache).Keys == w.chunks.Keys + w.chunkCache.Keys;
  }
}
