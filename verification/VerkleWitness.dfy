/** `packages/evm/src/verkleAccessWitness.ts`, with `stemCache.ts` and `chunkCache.ts`: which stems and
    chunks have been accessed, and what that has cost. Events are values here; the source's update in
    place of an event is an update of the one map that holds it. */
module VerkleWitness {
  import opened Wrappers

  /** Hex strings; a chunk key is its stem and two more digits. */
  type Key = string

  datatype StemEvent = StemEvent(write: bool, address: string, treeIndex: nat)

  datatype ChunkEvent = ChunkEvent(write: bool)

  datatype Witness = Witness(stems: map<Key, StemEvent>, chunks: map<Key, ChunkEvent>,
                             stemCache: map<Key, StemEvent>, chunkCache: map<Key, ChunkEvent>)

  const EMPTY := Witness(map[], map[], map[], map[])

  const BRANCH_READ := 1900
  const BRANCH_WRITE := 3000
  const CHUNK_READ := 200
  const CHUNK_WRITE := 500

  /** `chunkKey.slice(0, chunkKey.length - 2)`. */
  function StemOf(chunk: Key): Key {
    if |chunk| >= 2 then chunk[..|chunk| - 2] else []
  }

  const DIGITS := "0123456789abcdef"

  type byte = n: int | 0 <= n < 256

  /** The two digits of a sub index. */
  function HexOf(n: byte): (digits: string)
    ensures |digits| == 2
  {
    [DIGITS[n / 16], DIGITS[n % 16]]
  }

  /** The value of a digit; the keys have no other characters. */
  function Digit(c: char): nat {
    if '0' <= c <= '9' then c as nat - '0' as nat
    else if 'a' <= c <= 'f' then c as nat - 'a' as nat + 10
    else 0
  }

  /** The number after `0x` that the last two digits of a key make up. */
  function ChunkIndexOf(chunk: Key): nat {
    if |chunk| >= 2 then Digit(chunk[|chunk| - 2]) * 16 + Digit(chunk[|chunk| - 1]) else 0
  }

  lemma {:induction false} KeyReadsBack(stem: Key, n: byte)
    ensures StemOf(stem + HexOf(n)) == stem && ChunkIndexOf(stem + HexOf(n)) == n
  {
    assert forall d: nat | d < 16 :: Digit(DIGITS[d]) == d;
  }

  // ---------------------------------------------------------------------------------------
  // Operations
  // ---------------------------------------------------------------------------------------

  /** What the access was charged for. */
  datatype Flags = Flags(stemRead: bool, stemWrite: bool, chunkRead: bool, chunkWrite: bool)

  function GasOf(f: Flags): nat {
    (if f.stemRead then BRANCH_READ else 0) + (if f.stemWrite then BRANCH_WRITE else 0)
    + (if f.chunkRead then CHUNK_READ else 0) + if f.chunkWrite then CHUNK_WRITE else 0
  }

  function FindStem(w: Witness, stem: Key): Option<StemEvent> {
    if stem in w.stemCache then Some(w.stemCache[stem]) else if stem in w.stems then Some(w.stems[stem]) else None
  }

  function FindChunk(w: Witness, chunk: Key): Option<ChunkEvent> {
    if chunk in w.chunkCache then Some(w.chunkCache[chunk]) else if chunk in w.chunks then Some(w.chunks[chunk])
      else None
  }

  /** The flags of an access. */
  function FlagsOf(w: Witness, stem: Key, chunk: Key, isWrite: bool): Flags {
    var s, c := FindStem(w, stem), FindChunk(w, chunk);
    Flags(s.None?, isWrite && (s.None? || !s.value.write), c.None?, isWrite && (c.None? || !c.value.write))
  }

  /** The witness after an access. */
  function Touched(w: Witness, stem: Key, chunk: Key, address: string, treeIndex: nat, isWrite: bool): Witness {
    var s, c := FindStem(w, stem), FindChunk(w, chunk);
    var s' := s.UnwrapOr(StemEvent(false, address, treeIndex));
    var c' := c.UnwrapOr(ChunkEvent(false));
    var stemEvent, chunkEvent := s'.(write := s'.write || isWrite), ChunkEvent(c'.write || isWrite);
    Witness(if stem in w.stems && stem !in w.stemCache then w.stems[stem := stemEvent] else w.stems,
            if chunk in w.chunks && chunk !in w.chunkCache then w.chunks[chunk := chunkEvent] else w.chunks,
            if stem in w.stems && stem !in w.stemCache then w.stemCache else w.stemCache[stem := stemEvent],
            if chunk in w.chunks && chunk !in w.chunkCache then w.chunkCache else w.chunkCache[chunk := chunkEvent])
  }

  function Committed(w: Witness): Witness {
    Witness(w.stems + w.stemCache, w.chunks + w.chunkCache, map[], map[])
  }

  function Reverted(w: Witness): Witness {
    w.(stemCache := map[], chunkCache := map[])
  }

  // ---------------------------------------------------------------------------------------
  // What holds of every witness
  // ---------------------------------------------------------------------------------------

  /** The caches hold nothing that is committed; every chunk has its stem, and a committed chunk a committed stem. */
  predicate Good(w: Witness) {
    && w.stems.Keys !! w.stemCache.Keys && w.chunks.Keys !! w.chunkCache.Keys
    && (forall chunk :: chunk in w.chunks ==> StemOf(chunk) in w.stems)
    && (forall chunk :: chunk in w.chunkCache ==> FindStem(w, StemOf(chunk)).Some?)
  }

  function WrittenStems(m: map<Key, StemEvent>): set<Key> {
    set key | key in m && m[key].write
  }

  function WrittenChunks(m: map<Key, ChunkEvent>): set<Key> {
    set key | key in m && m[key].write
  }

  /** What the stems and chunks of the witness are worth. */
  function Cost(w: Witness): nat {
    StemCost(w.stems) + StemCost(w.stemCache) + ChunkCost(w.chunks) + ChunkCost(w.chunkCache)
  }

  function StemCost(m: map<Key, StemEvent>): nat {
    BRANCH_READ * |m| + BRANCH_WRITE * |WrittenStems(m)|
  }

  function ChunkCost(m: map<Key, ChunkEvent>): nat {
    CHUNK_READ * |m| + CHUNK_WRITE * |WrittenChunks(m)|
  }

  /** Keys and written keys of a map with one entry set. */
  lemma {:induction false} SizeSet<V>(m: map<Key, V>, key: Key, event: V, before: set<Key>, after: set<Key>,
                                      written: bool)
    requires after == if written then before + {key} else before
    ensures |m[key := event]| == |m| + if key in m then 0 else 1
    ensures |after| == |before| + if written && key !in before then 1 else 0
  {
    assert m[key := event].Keys == m.Keys + {key};
    assert |m[key := event]| == |m[key := event].Keys| && |m| == |m.Keys|;
    assert key in before ==> before + {key} == before;
    assert key in m ==> m.Keys + {key} == m.Keys;
  }

  lemma {:induction false} StemSet(m: map<Key, StemEvent>, key: Key, event: StemEvent)
    requires key in m && m[key].write ==> event.write
    ensures StemCost(m[key := event]) == StemCost(m) + (if key in m then 0 else BRANCH_READ)
            + if event.write && !(key in m && m[key].write) then BRANCH_WRITE else 0
  {
    var before, after := WrittenStems(m), WrittenStems(m[key := event]);
    assert after == if event.write then before + {key} else before;
    assert key in before <==> key in m && m[key].write;
    hide WrittenStems;
    SizeSet(m, key, event, before, after, event.write);
  }

  lemma {:induction false} ChunkSet(m: map<Key, ChunkEvent>, key: Key, event: ChunkEvent)
    requires key in m && m[key].write ==> event.write
    ensures ChunkCost(m[key := event]) == ChunkCost(m) + (if key in m then 0 else CHUNK_READ)
            + if event.write && !(key in m && m[key].write) then CHUNK_WRITE else 0
  {
    var before, after := WrittenChunks(m), WrittenChunks(m[key := event]);
    assert after == if event.write then before + {key} else before;
    assert key in before <==> key in m && m[key].write;
    hide WrittenChunks;
    SizeSet(m, key, event, before, after, event.write);
  }

  /** Every access is charged what it adds to the witness. */
  lemma {:induction false} TouchPays(w: Witness, stem: Key, chunk: Key, address: string, treeIndex: nat, isWrite: bool)
    requires Good(w) && stem == StemOf(chunk)
    ensures var w' := Touched(w, stem, chunk, address, treeIndex, isWrite);
            Good(w') && Cost(w') == Cost(w) + GasOf(FlagsOf(w, stem, chunk, isWrite))
  {
    TouchIsGood(w, stem, chunk, address, treeIndex, isWrite);
    hide Good, StemCost, ChunkCost;
    var s := FindStem(w, stem).UnwrapOr(StemEvent(false, address, treeIndex));
    var c := FindChunk(w, chunk).UnwrapOr(ChunkEvent(false));
    Apart(w);
    StemSet(if stem in w.stems then w.stems else w.stemCache, stem, s.(write := s.write || isWrite));
    ChunkSet(if chunk in w.chunks then w.chunks else w.chunkCache, chunk, ChunkEvent(c.write || isWrite));
  }

  lemma {:induction false} Apart(w: Witness)
    requires Good(w)
    ensures forall key :: key in w.stems ==> key !in w.stemCache
    ensures forall key :: key in w.chunks ==> key !in w.chunkCache
  {
    forall key | key in w.stems ensures key !in w.stemCache {
      assert key in w.stems.Keys;
    }
    forall key | key in w.chunks ensures key !in w.chunkCache {
      assert key in w.chunks.Keys;
    }
  }

  lemma {:induction false} TouchIsGood(w: Witness, stem: Key, chunk: Key, address: string, treeIndex: nat,
                                       isWrite: bool)
    requires Good(w) && stem == StemOf(chunk)
    ensures Good(Touched(w, stem, chunk, address, treeIndex, isWrite))
  {
    hide StemOf;
    var w' := Touched(w, stem, chunk, address, treeIndex, isWrite);
    Apart(w);
    forall key | key in w'.stems.Keys ensures key !in w'.stemCache.Keys {
    }
    forall key | key in w'.chunks.Keys ensures key !in w'.chunkCache.Keys {
    }
    forall key | key in w'.chunkCache ensures FindStem(w', StemOf(key)).Some? {
    }
  }

  lemma {:induction false} DisjointSize<V>(a: map<Key, V>, b: map<Key, V>, x: set<Key>, y: set<Key>)
    requires a.Keys !! b.Keys && x <= a.Keys && y <= b.Keys
    ensures |a + b| == |a| + |b| && |x + y| == |x| + |y|
  {
    assert (a + b).Keys == a.Keys + b.Keys;
    assert |a + b| == |(a + b).Keys| && |a| == |a.Keys| && |b| == |b.Keys|;
    assert x !! y;
  }

  lemma {:induction false} WrittenStemsTogether(a: map<Key, StemEvent>, b: map<Key, StemEvent>)
    requires a.Keys !! b.Keys
    ensures WrittenStems(a + b) == WrittenStems(a) + WrittenStems(b)
    ensures WrittenStems(a) <= a.Keys && WrittenStems(b) <= b.Keys
  {
    forall key | key in a ensures key !in b {
      assert key in a.Keys;
    }
  }

  lemma {:induction false} WrittenChunksTogether(a: map<Key, ChunkEvent>, b: map<Key, ChunkEvent>)
    requires a.Keys !! b.Keys
    ensures WrittenChunks(a + b) == WrittenChunks(a) + WrittenChunks(b)
    ensures WrittenChunks(a) <= a.Keys && WrittenChunks(b) <= b.Keys
  {
    forall key | key in a ensures key !in b {
      assert key in a.Keys;
    }
  }

  lemma {:induction false} StemsTogether(a: map<Key, StemEvent>, b: map<Key, StemEvent>)
    requires a.Keys !! b.Keys
    ensures StemCost(a + b) == StemCost(a) + StemCost(b)
  {
    hide WrittenStems;
    WrittenStemsTogether(a, b);
    DisjointSize(a, b, WrittenStems(a), WrittenStems(b));
  }

  lemma {:induction false} ChunksTogether(a: map<Key, ChunkEvent>, b: map<Key, ChunkEvent>)
    requires a.Keys !! b.Keys
    ensures ChunkCost(a + b) == ChunkCost(a) + ChunkCost(b)
  {
    hide WrittenChunks;
    WrittenChunksTogether(a, b);
    DisjointSize(a, b, WrittenChunks(a), WrittenChunks(b));
  }

  /** Committing changes no cost; reverting can only lower it. */
  lemma {:induction false} CommitAndRevert(w: Witness)
    requires Good(w)
    ensures Good(Committed(w)) && Cost(Committed(w)) == Cost(w)
    ensures Good(Reverted(w)) && Cost(Reverted(w)) <= Cost(w)
  {
    CommitIsGood(w);
    RevertIsGood(w);
    StemsTogether(w.stems, w.stemCache);
    ChunksTogether(w.chunks, w.chunkCache);
    hide Good, StemCost, ChunkCost;
    NoCost();
  }

  lemma {:induction false} CommitIsGood(w: Witness)
    requires Good(w)
    ensures Good(Committed(w))
  {
    hide StemOf;
    forall chunk | chunk in w.chunks + w.chunkCache ensures StemOf(chunk) in w.stems + w.stemCache {
      if chunk in w.chunkCache {
        assert FindStem(w, StemOf(chunk)).Some?;
      } else {
        assert chunk in w.chunks;
      }
    }
  }

  lemma {:induction false} RevertIsGood(w: Witness)
    requires Good(w)
    ensures Good(Reverted(w))
  {
    hide StemOf;
  }

  lemma {:induction false} NoCost()
    ensures StemCost(map[]) == 0 && ChunkCost(map[]) == 0
  {
    assert WrittenStems(map[]) == {} && WrittenChunks(map[]) == {};
  }

  // ---------------------------------------------------------------------------------------
  // Runs
  // ---------------------------------------------------------------------------------------

  datatype Op = Touch(chunk: Key, address: string, treeIndex: nat, isWrite: bool) | Commit | Revert

  function Step(w: Witness, op: Op): Witness {
    match op
    case Touch(chunk, address, treeIndex, isWrite) => Touched(w, StemOf(chunk), chunk, address, treeIndex, isWrite)
    case Commit => Committed(w)
    case Revert => Reverted(w)
  }

  function RunFrom(w: Witness, ops: seq<Op>): Witness {
    if ops == [] then w else Step(RunFrom(w, ops[..|ops| - 1]), ops[|ops| - 1])
  }

  function Run(ops: seq<Op>): Witness {
    RunFrom(EMPTY, ops)
  }

  /** All the gas charged along a run. */
  function Charged(ops: seq<Op>): nat {
    if ops == [] then 0
    else
      var before, op := ops[..|ops| - 1], ops[|ops| - 1];
      Charged(before) + if op.Touch? then GasOf(FlagsOf(Run(before), StemOf(op.chunk), op.chunk, op.isWrite)) else 0
  }

  /** In any run the gas charged is at least what the witness is worth, and exactly that if nothing was
      reverted. */
  lemma {:induction false} ChargedIsCost(ops: seq<Op>)
    ensures Good(Run(ops)) && Charged(ops) >= Cost(Run(ops))
    ensures (forall i | 0 <= i < |ops| :: !ops[i].Revert?) ==> Charged(ops) == Cost(Run(ops))
  {
    if ops != [] {
      var before, op := ops[..|ops| - 1], ops[|ops| - 1];
      ChargedIsCost(before);
      var w := Run(before);
      match op
      case Touch(chunk, address, treeIndex, isWrite) => TouchPays(w, StemOf(chunk), chunk, address, treeIndex, isWrite);
      case Commit => CommitAndRevert(w);
      case Revert => CommitAndRevert(w);
    }
  }

  // ---------------------------------------------------------------------------------------
  // What a revert gives back
  // ---------------------------------------------------------------------------------------

  /** A write to a stem or chunk that is committed as read only: the event itself is changed, not a copy of it. */
  predicate Raises(w: Witness, chunk: Key, isWrite: bool) {
    && isWrite
    && ((StemOf(chunk) in w.stems && !w.stems[StemOf(chunk)].write) || (chunk in w.chunks && !w.chunks[chunk].write))
  }

  /** Reverting right after an access takes it back exactly when it raised no committed flag. */
  lemma {:induction false} RevertExactly(w: Witness, chunk: Key, address: string, treeIndex: nat, isWrite: bool)
    requires Good(w)
    ensures Reverted(Touched(w, StemOf(chunk), chunk, address, treeIndex, isWrite)) == Reverted(w)
            <==> !Raises(w, chunk, isWrite)
  {
    var stem := StemOf(chunk);
    var w' := Touched(w, stem, chunk, address, treeIndex, isWrite);
    hide StemOf;
    Apart(w);
    if stem in w.stems {
      assert w'.stems[stem].write == (w.stems[stem].write || isWrite);
    }
    if chunk in w.chunks {
      assert w'.chunks[chunk].write == (w.chunks[chunk].write || isWrite);
    }
    if !Raises(w, chunk, isWrite) {
      assert w'.stems == w.stems && w'.chunks == w.chunks;
    }
  }

  /** `w'` differs from `w` in what is committed at most by write flags that have been set. */
  ghost predicate Raised(w: Witness, w': Witness) {
    && w.stems.Keys == w'.stems.Keys && w.chunks.Keys == w'.chunks.Keys
    && (forall key :: key in w.stems ==>
          w'.stems[key] == w.stems[key].(write := w.stems[key].write || w'.stems[key].write))
    && (forall key :: key in w.chunks && w.chunks[key].write ==> w'.chunks[key].write)
  }

  lemma {:induction false} TouchRaises(w: Witness, chunk: Key, address: string, treeIndex: nat, isWrite: bool)
    requires Good(w)
    ensures Raised(w, Touched(w, StemOf(chunk), chunk, address, treeIndex, isWrite))
  {
    hide StemOf;
    Apart(w);
  }

  /** Flags are never taken back on the way, so what is the same in the end was the same all along. */
  lemma {:induction false} SameAllAlong(w: Witness, w': Witness, w'': Witness)
    requires Raised(w, w') && Raised(w', w'') && Reverted(w'') == Reverted(w)
    ensures Reverted(w') == Reverted(w)
  {
    forall key | key in w.stems ensures w'.stems[key] == w.stems[key] {
    }
    forall key | key in w.chunks ensures w'.chunks[key] == w.chunks[key] {
    }
  }

  /** Only accesses. */
  predicate Touches(ops: seq<Op>) {
    forall i | 0 <= i < |ops| :: ops[i].Touch?
  }

  /** No access raises a flag that is committed in `w`. */
  predicate RaisesNothing(w: Witness, ops: seq<Op>)
    requires Touches(ops)
  {
    forall i | 0 <= i < |ops| :: !Raises(w, ops[i].chunk, ops[i].isWrite)
  }

  /** Any number of accesses is taken back by a revert exactly when none raises a committed flag. */
  lemma {:induction false} RevertsExactly(w: Witness, ops: seq<Op>)
    requires Good(w) && Touches(ops)
    ensures Good(RunFrom(w, ops)) && Raised(w, RunFrom(w, ops))
    ensures Reverted(RunFrom(w, ops)) == Reverted(w) <==> RaisesNothing(w, ops)
  {
    hide Good, Touched, Reverted, Raised, Raises, RaisesNothing, Committed;
    RaisesOneMore(w, ops);
    if ops == [] {
      RaisedSelf(w);
    } else {
      var before, op := ops[..|ops| - 1], ops[|ops| - 1];
      assert op.Touch? && Touches(before);
      RevertsExactly(w, before);
      RevertsOneMore(w, RunFrom(w, before), op.chunk, op.address, op.treeIndex, op.isWrite);
    }
  }

  lemma {:induction false} RaisesOneMore(w: Witness, ops: seq<Op>)
    requires Touches(ops)
    ensures ops == [] ==> RaisesNothing(w, ops)
    ensures ops != [] ==>
              var before, op := ops[..|ops| - 1], ops[|ops| - 1];
              && op.Touch? && Touches(before)
              && (RaisesNothing(w, ops) <==> RaisesNothing(w, before) && !Raises(w, op.chunk, op.isWrite))
  {
    hide Raises;
  }

  lemma {:induction false} RaisedSelf(w: Witness)
    ensures Raised(w, w)
  {}

  lemma {:induction false} RevertsOneMore(w: Witness, w': Witness, chunk: Key, address: string, treeIndex: nat,
                                          isWrite: bool)
    requires Good(w') && Raised(w, w')
    ensures var w'' := Touched(w', StemOf(chunk), chunk, address, treeIndex, isWrite);
            && Good(w'') && Raised(w, w'')
            && (Reverted(w'') == Reverted(w) <==> Reverted(w') == Reverted(w) && !Raises(w, chunk, isWrite))
  {
    var w'' := Touched(w', StemOf(chunk), chunk, address, treeIndex, isWrite);
    TouchIsGood(w', StemOf(chunk), chunk, address, treeIndex, isWrite);
    TouchRaises(w', chunk, address, treeIndex, isWrite);
    RevertExactly(w', chunk, address, treeIndex, isWrite);
    RaisedOn(w, w', w'');
    hide Good, Touched, StemOf, Raised;
    if Reverted(w'') == Reverted(w) {
      SameAllAlong(w, w', w'');
    }
  }

  lemma {:induction false} RaisedOn(w: Witness, w': Witness, w'': Witness)
    requires Raised(w, w') && Raised(w', w'')
    ensures Raised(w, w'')
  {}

  lemma {:induction false} RunOn(before: seq<Op>, ops: seq<Op>)
    ensures Run(before + ops) == RunFrom(Run(before), ops)
  {
    if ops == [] {
      assert before + ops == before;
    } else {
      RunOn(before, ops[..|ops| - 1]);
      assert (before + ops)[..|before + ops| - 1] == before + ops[..|ops| - 1];
    }
  }

  /** After any run: commit, any accesses, revert. The witness is the committed one again exactly when no access
      wrote to a stem or chunk that had been committed as read only. */
  lemma {:induction false} RevertGivesBack(before: seq<Op>, ops: seq<Op>)
    requires Touches(ops)
    ensures Run(before + [Commit] + ops + [Revert]) == Run(before + [Commit])
            <==> RaisesNothing(Run(before + [Commit]), ops)
  {
    var committed := before + [Commit];
    ChargedIsCost(committed);
    RunOn(committed, ops);
    var all := committed + ops + [Revert];
    assert all[..|all| - 1] == committed + ops && committed[..|committed| - 1] == before;
    hide RunFrom, Good, RaisesNothing;
    RevertsExactly(Run(committed), ops);
    LastStep(before, Commit);
    LastStep(committed + ops, Revert);
  }

  lemma {:induction false} LastStep(before: seq<Op>, op: Op)
    ensures Run(before + [op]) == Step(Run(before), op)
  {
    assert (before + [op])[..|before + [op]| - 1] == before;
  }

  /** A read that is committed, and a write that is reverted: the committed event is a write afterwards. */
  lemma {:induction false} WriteOutlivesRevert(chunk: Key, address: string, treeIndex: nat)
    ensures var read, write := Touch(chunk, address, treeIndex, false), Touch(chunk, address, treeIndex, true);
            && Run([read, Commit]).chunks == map[chunk := ChunkEvent(false)]
            && Run([read, Commit, write, Revert]).chunks == map[chunk := ChunkEvent(true)]
  {
    var read, write := Touch(chunk, address, treeIndex, false), Touch(chunk, address, treeIndex, true);
    assert Run([]) == EMPTY;
    LastStep([], read);
    LastStep([read], Commit);
    LastStep([read, Commit], write);
    LastStep([read, Commit, write], Revert);
    assert [] + [read] == [read] && [read] + [Commit] == [read, Commit];
    assert [read, Commit] + [write] == [read, Commit, write]
      && [read, Commit, write] + [Revert] == [read, Commit, write, Revert];
    hide Run;
    assert Run([read]).chunkCache == map[chunk := ChunkEvent(false)];
  }

  // ---------------------------------------------------------------------------------------
  // The classes
  // ---------------------------------------------------------------------------------------

  /** `packages/evm/src/stemCache.ts`. */
  class StemCache {
    var cache: map<Key, StemEvent>

    constructor ()
      ensures cache == map[]
    {
      cache := map[];
    }

    method Set(key: Key, value: StemEvent)
      modifies this
      ensures cache == old(cache)[key := value]
    {
      cache := cache[key := value];
    }

    method Get(key: Key) returns (value: Option<StemEvent>)
      ensures value == if key in cache then Some(cache[key]) else None
    {
      value := if key in cache then Some(cache[key]) else None;
    }

    /** All entries; the cache is empty afterwards. */
    method Commit() returns (items: map<Key, StemEvent>)
      modifies this
      ensures items == old(cache) && cache == map[]
    {
      items := cache;
      Clear();
    }

    method Clear()
      modifies this
      ensures cache == map[]
    {
      cache := map[];
    }
  }

  /** `packages/evm/src/chunkCache.ts`. */
  class ChunkCache {
    var cache: map<Key, ChunkEvent>

    constructor ()
      ensures cache == map[]
    {
      cache := map[];
    }

    method Set(key: Key, value: ChunkEvent)
      modifies this
      ensures cache == old(cache)[key := value]
    {
      cache := cache[key := value];
    }

    method Get(key: Key) returns (value: Option<ChunkEvent>)
      ensures value == if key in cache then Some(cache[key]) else None
    {
      value := if key in cache then Some(cache[key]) else None;
    }

    /** All entries; the cache is empty afterwards. */
    method Commit() returns (items: map<Key, ChunkEvent>)
      modifies this
      ensures items == old(cache) && cache == map[]
    {
      items := cache;
      Clear();
    }

    method Clear()
      modifies this
      ensures cache == map[]
    {
      cache := map[];
    }
  }

  /** A chunk of the witness together with what its stem stands for. */
  datatype RawAccess = RawAccess(address: string, treeIndex: nat, chunkIndex: nat, chunkKey: Key)

  /** A stem event holds what was hashed to its key, and a chunk key is a stem and the digits of a sub index. */
  ghost predicate Named(stemFor: (string, nat) -> Key, w: Witness) {
    && (forall key :: key in w.stems ==> stemFor(w.stems[key].address, w.stems[key].treeIndex) == key)
    && (forall key :: key in w.stemCache ==> stemFor(w.stemCache[key].address, w.stemCache[key].treeIndex) == key)
    && (forall key :: key in w.chunks || key in w.chunkCache ==> IsChunkKey(key))
  }

  predicate IsChunkKey(key: Key) {
    ChunkIndexOf(key) < 256 && key == StemOf(key) + HexOf(ChunkIndexOf(key))
  }

  lemma {:induction false} TouchIsNamed(stemFor: (string, nat) -> Key, w: Witness, address: string, treeIndex: nat,
                                        subIndex: byte, isWrite: bool)
    requires Named(stemFor, w)
    ensures var stem := stemFor(address, treeIndex);
            Named(stemFor, Touched(w, stem, stem + HexOf(subIndex), address, treeIndex, isWrite))
  {
    KeyReadsBack(stemFor(address, treeIndex), subIndex);
    assert IsChunkKey(stemFor(address, treeIndex) + HexOf(subIndex));
    hide IsChunkKey, HexOf;
  }

  lemma {:induction false} CommitIsNamed(stemFor: (string, nat) -> Key, w: Witness)
    requires Named(stemFor, w)
    ensures Named(stemFor, Committed(w)) && Named(stemFor, Reverted(w))
  {
    hide IsChunkKey;
  }

  class VerkleAccessWitness {
    var stems: map<Key, StemEvent>
    var chunks: map<Key, ChunkEvent>
    const stemCache: StemCache
    const chunkCache: ChunkCache
    const stemFor: (string, nat) -> Key

    function Contents(): Witness
      reads this, stemCache, chunkCache
    {
      Witness(stems, chunks, stemCache.cache, chunkCache.cache)
    }

    ghost predicate Valid()
      reads this, stemCache, chunkCache
    {
      Good(Contents()) && Named(stemFor, Contents())
    }

    /** `stemFor` stands for `getVerkleStem`. */
    constructor (stemFor: (string, nat) -> Key)
      ensures Valid() && Contents() == EMPTY && fresh(stemCache) && fresh(chunkCache) && this.stemFor == stemFor
    {
      this.stemFor := stemFor;
      stems, chunks := map[], map[];
      stemCache := new StemCache();
      chunkCache := new ChunkCache();
    }

    /** `touchAddress` (verkleAccessWitness.ts:226-280). */
    method TouchAddress(address: string, treeIndex: nat, subIndex: byte, isWrite: bool) returns (flags: Flags)
      requires Valid()
      modifies this, stemCache, chunkCache
      ensures var stem := stemFor(address, treeIndex);
              && flags == FlagsOf(old(Contents()), stem, stem + HexOf(subIndex), isWrite)
              && Contents() == Touched(old(Contents()), stem, stem + HexOf(subIndex), address, treeIndex, isWrite)
      ensures Valid()
    {
      hide Good, Named, Cost, StemOf, GasOf, HexOf;
      ghost var w := Contents();
      var accessedStemHex := stemFor(address, treeIndex);
      var accessedChunkKeyHex := accessedStemHex + HexOf(subIndex);
      KeyReadsBack(accessedStemHex, subIndex);
      TouchIsNamed(stemFor, w, address, treeIndex, subIndex, isWrite);
      TouchPays(w, accessedStemHex, accessedChunkKeyHex, address, treeIndex, isWrite);
      var stemRead, stemWrite := TouchStem(accessedStemHex, address, treeIndex, isWrite);
      var chunkRead, chunkWrite := TouchChunk(accessedChunkKeyHex, isWrite);
      flags := Flags(stemRead, stemWrite, chunkRead, chunkWrite);
    }

    /** The stem's half of `touchAddress`; `write` is set in whichever map holds the event. */
    method TouchStem(key: Key, address: string, treeIndex: nat, isWrite: bool) returns (stemRead: bool, stemWrite: bool)
      modifies this`stems, stemCache
      ensures var found := FindStem(old(Contents()), key);
              var event := found.UnwrapOr(StemEvent(false, address, treeIndex));
              var event' := event.(write := event.write || isWrite);
              && stemRead == found.None? && stemWrite == (isWrite && (found.None? || !found.value.write))
              && if key in old(stems) && key !in old(stemCache.cache)
                 then stems == old(stems)[key := event'] && stemCache.cache == old(stemCache.cache)
                 else stems == old(stems) && stemCache.cache == old(stemCache.cache)[key := event']
    {
      stemRead, stemWrite := false, false;
      var accessedStem := stemCache.Get(key);
      if accessedStem.None? && key in stems {
        accessedStem := Some(stems[key]);
      }
      if accessedStem.None? {
        stemRead := true;
        accessedStem := Some(StemEvent(false, address, treeIndex));
        stemCache.Set(key, accessedStem.value);
      }
      if isWrite && !accessedStem.value.write {
        stemWrite := true;
        var written := accessedStem.value.(write := true);
        if key in stemCache.cache {
          stemCache.Set(key, written);
        } else {
          stems := stems[key := written];
        }
      }
    }

    /** The chunk's half. */
    method TouchChunk(key: Key, isWrite: bool) returns (chunkRead: bool, chunkWrite: bool)
      modifies this`chunks, chunkCache
      ensures var found := FindChunk(old(Contents()), key);
              var event' := ChunkEvent(found.UnwrapOr(ChunkEvent(false)).write || isWrite);
              && chunkRead == found.None? && chunkWrite == (isWrite && (found.None? || !found.value.write))
              && if key in old(chunks) && key !in old(chunkCache.cache)
                 then chunks == old(chunks)[key := event'] && chunkCache.cache == old(chunkCache.cache)
                 else chunks == old(chunks) && chunkCache.cache == old(chunkCache.cache)[key := event']
    {
      chunkRead, chunkWrite := false, false;
      var accessedChunk := chunkCache.Get(key);
      if accessedChunk.None? && key in chunks {
        accessedChunk := Some(chunks[key]);
      }
      if accessedChunk.None? {
        chunkRead := true;
        accessedChunk := Some(ChunkEvent(false));
        chunkCache.Set(key, accessedChunk.value);
      }
      if isWrite && !accessedChunk.value.write {
        chunkWrite := true;
        if key in chunkCache.cache {
          chunkCache.Set(key, ChunkEvent(true));
        } else {
          chunks := chunks[key := ChunkEvent(true)];
        }
      }
    }

    /** `touchAddressAndComputeGas` (verkleAccessWitness.ts:187-224): the gas is what the witness gains. */
    method TouchAddressAndComputeGas(address: string, treeIndex: nat, subIndex: byte, isWrite: bool) returns (gas: nat)
      requires Valid()
      modifies this, stemCache, chunkCache
      ensures Valid() && Cost(Contents()) == Cost(old(Contents())) + gas
      ensures var stem := stemFor(address, treeIndex);
              Contents() == Touched(old(Contents()), stem, stem + HexOf(subIndex), address, treeIndex, isWrite)
    {
      hide Good, Named, Cost, HexOf;
      ghost var w, stem := Contents(), stemFor(address, treeIndex);
      KeyReadsBack(stem, subIndex);
      TouchPays(w, stem, stem + HexOf(subIndex), address, treeIndex, isWrite);
      var flags := TouchAddress(address, treeIndex, subIndex, isWrite);
      gas := 0;
      if flags.stemRead {
        gas := gas + BRANCH_READ;
      }
      if flags.stemWrite {
        gas := gas + BRANCH_WRITE;
      }
      if flags.chunkRead {
        gas := gas + CHUNK_READ;
      }
      if flags.chunkWrite {
        gas := gas + CHUNK_WRITE;
      }
    }

    /** verkleAccessWitness.ts:307-317. */
    method Commit()
      requires Valid()
      modifies this, stemCache, chunkCache
      ensures Valid() && Contents() == Committed(old(Contents()))
    {
      hide Good, Named, Cost;
      CommitAndRevert(Contents());
      CommitIsNamed(stemFor, Contents());
      var cachedStems := stemCache.Commit();
      stems := stems + cachedStems;
      var cachedChunks := chunkCache.Commit();
      chunks := chunks + cachedChunks;
    }

    /** verkleAccessWitness.ts:319-322. */
    method Revert()
      requires Valid()
      modifies stemCache, chunkCache
      ensures Valid() && Contents() == Reverted(old(Contents()))
    {
      hide Good, Named, Cost;
      CommitAndRevert(Contents());
      CommitIsNamed(stemFor, Contents());
      stemCache.Clear();
      chunkCache.Clear();
    }

    /** `debugWitnessCost` (verkleAccessWitness.ts:324-355): the totals it prints add up to the cost of what is
        committed. */
    method DebugWitnessCost() returns (stemReads: nat, stemWrites: nat, chunkReads: nat, chunkWrites: nat)
      ensures stemReads * BRANCH_READ + stemWrites * BRANCH_WRITE == StemCost(stems)
      ensures chunkReads * CHUNK_READ + chunkWrites * CHUNK_WRITE == ChunkCost(chunks)
    {
      stemReads, stemWrites := Count(stems, (event: StemEvent) => event.write, WrittenStems(stems));
      chunkReads, chunkWrites := Count(chunks, (event: ChunkEvent) => event.write, WrittenChunks(chunks));
    }

    /** A loop of `debugWitnessCost`. */
    static method Count<V>(entries: map<Key, V>, isWritten: V -> bool, ghost written: set<Key>)
      returns (accessed: nat, writes: nat)
      requires written == set key | key in entries && isWritten(entries[key])
      ensures accessed == |entries| && writes == |written|
    {
      accessed, writes := 0, 0;
      var todo := entries.Keys;
      assert todo * written == written;
      while todo != {}
        invariant todo <= entries.Keys && accessed + |todo| == |entries.Keys| && writes + |todo * written| == |written|
      {
        var key :| key in todo;
        accessed := accessed + 1;
        assert (todo - {key}) * written == todo * written - {key};
        if isWritten(entries[key]) {
          writes := writes + 1;
        }
        todo := todo - {key};
      }
    }

    /** A report names a chunk that has been accessed: address, tree index and chunk index are hashed and written
        to its key. */
    ghost predicate Reports(a: RawAccess)
      reads this
    {
      && a.chunkKey in chunks && a.chunkIndex < 256
      && a.chunkKey == stemFor(a.address, a.treeIndex) + HexOf(a.chunkIndex)
      && StemOf(a.chunkKey) in stems
      && a.address == stems[StemOf(a.chunkKey)].address && a.treeIndex == stems[StemOf(a.chunkKey)].treeIndex
    }

    lemma {:induction false} ReportsOne(chunkKey: Key)
      requires Valid() && chunkKey in chunks
      ensures StemOf(chunkKey) in stems
      ensures var stem := stems[StemOf(chunkKey)];
              Reports(RawAccess(stem.address, stem.treeIndex, ChunkIndexOf(chunkKey), chunkKey))
    {
      hide HexOf, StemOf, ChunkIndexOf;
      assert IsChunkKey(chunkKey);
    }

    /** `rawAccesses` (verkleAccessWitness.ts:356-370): every chunk is reported once, and nothing is thrown. */
    method RawAccesses() returns (accesses: seq<RawAccess>)
      requires Valid()
      ensures |accesses| == |chunks|
      ensures forall i | 0 <= i < |accesses| :: Reports(accesses[i])
      ensures forall key :: key in chunks ==> exists i :: 0 <= i < |accesses| && accesses[i].chunkKey == key
    {
      hide Good, Named, Reports, StemOf, ChunkIndexOf;
      accesses := [];
      var todo := chunks.Keys;
      while todo != {}
        invariant todo <= chunks.Keys && |accesses| + |todo| == |chunks.Keys|
        invariant forall i | 0 <= i < |accesses| :: Reports(accesses[i])
        invariant forall key :: key in chunks && key !in todo ==>
                    exists i :: 0 <= i < |accesses| && accesses[i].chunkKey == key
      {
        var chunkKey :| chunkKey in todo;
        ReportsOne(chunkKey);
        var stem := stems[StemOf(chunkKey)];
        ghost var before := accesses;
        accesses := accesses + [RawAccess(stem.address, stem.treeIndex, ChunkIndexOf(chunkKey), chunkKey)];
        assert accesses[|before|].chunkKey == chunkKey;
        forall key | key in chunks && key !in todo - {chunkKey}
          ensures exists i :: 0 <= i < |accesses| && accesses[i].chunkKey == key
        {
          if key != chunkKey {
            var i :| 0 <= i < |before| && before[i].chunkKey == key;
            assert accesses[i].chunkKey == key;
          }
        }
        todo := todo - {chunkKey};
      }
    }
  }

  // ---------------------------------------------------------------------------------------
  // What a chunk stands for
  // ---------------------------------------------------------------------------------------

  const HEADER_STORAGE_OFFSET := 64
  const CODE_OFFSET := 128
  const NODE_WIDTH := 256
  /** 256 to the power of 31. */
  const MAIN_STORAGE_OFFSET: nat := 0x1_00000000_00000000_00000000_00000000_00000000_00000000_00000000_000000

  datatype AccessedState = BasicData | CodeHash | Storage(slot: nat) | Code(codeOffset: nat)

  /** `decodeAccessedState`; nothing where it throws. */
  function DecodeAccessedState(treeIndex: nat, chunkIndex: nat): Option<AccessedState> {
    var position := treeIndex * NODE_WIDTH + chunkIndex;
    if position == 0 then Some(BasicData)
    else if position == 1 then Some(CodeHash)
    else if position < HEADER_STORAGE_OFFSET then None
    else if position < CODE_OFFSET then Some(Storage(position - HEADER_STORAGE_OFFSET))
    else if position < MAIN_STORAGE_OFFSET then Some(Code((position - CODE_OFFSET) * 31))
    else Some(Storage(position - MAIN_STORAGE_OFFSET))
  }

  /** `getVerkleTreeIndicesForStorageSlot` (util/src/verkle.ts:196-211). */
  function IndicesForStorageSlot(slot: nat): (nat, nat) {
    var position := if slot < CODE_OFFSET - HEADER_STORAGE_OFFSET then HEADER_STORAGE_OFFSET + slot
      else MAIN_STORAGE_OFFSET + slot;
    (position / NODE_WIDTH, position % NODE_WIDTH)
  }

  /** `getVerkleTreeIndicesForCodeChunk` (util/src/verkle.ts:219-223). */
  function IndicesForCodeChunk(chunkId: nat): (nat, nat) {
    ((CODE_OFFSET + chunkId) / NODE_WIDTH, (CODE_OFFSET + chunkId) % NODE_WIDTH)
  }

  /** The place of a storage slot or of a code chunk is decoded to that slot or chunk, for every slot, and for
      code up to where the main storage begins. */
  lemma {:induction false} IndicesDecode(slot: nat, chunkId: nat)
    ensures var (treeIndex, subIndex) := IndicesForStorageSlot(slot);
            subIndex < NODE_WIDTH && DecodeAccessedState(treeIndex, subIndex) == Some(Storage(slot))
    ensures var (treeIndex, subIndex) := IndicesForCodeChunk(chunkId);
            CODE_OFFSET + chunkId < MAIN_STORAGE_OFFSET <==>
              DecodeAccessedState(treeIndex, subIndex) == Some(Code(chunkId * 31))
  {
    var position := CODE_OFFSET + chunkId;
    assert position == position / NODE_WIDTH * NODE_WIDTH + position % NODE_WIDTH;
    var place := if slot < CODE_OFFSET - HEADER_STORAGE_OFFSET then HEADER_STORAGE_OFFSET + slot
      else MAIN_STORAGE_OFFSET + slot;
    assert place == place / NODE_WIDTH * NODE_WIDTH + place % NODE_WIDTH;
  }

  /** The other way round, for every place in a node: places 2 to 63 of an account decode to nothing; a chunk of code is
      decoded at its own place; and so is a slot, except at the first 64 places of the main storage, which stand for
      no slot, since those slots are in the account's header. */
  lemma {:induction false} DecodedBack(treeIndex: nat, subIndex: nat)
    requires subIndex < 256
    ensures var position := treeIndex * 256 + subIndex;
            match DecodeAccessedState(treeIndex, subIndex)
            case None => 2 <= position < 64
            case Some(BasicData) => position == 0
            case Some(CodeHash) => position == 1
            case Some(Code(offset)) => offset % 31 == 0 && IndicesForCodeChunk(offset / 31) == (treeIndex, subIndex)
            case Some(Storage(slot)) =>
              IndicesForStorageSlot(slot) == (treeIndex, subIndex) <==>
                !(MAIN_STORAGE_OFFSET <= position < MAIN_STORAGE_OFFSET + 64)
  {
    var position := treeIndex * 256 + subIndex;
    assert position / 256 == treeIndex && position % 256 == subIndex;
  }
}
