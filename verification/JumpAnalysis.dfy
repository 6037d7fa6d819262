/** Jump destinations and the opcode cache of `packages/evm/src/interpreter.ts`: the cached way of
    decoding agrees with decoding the code afresh, on every run. */
module JumpAnalysis {
  import opened Rlp
  import opened Wrappers

  const JUMP: byte := 0x56
  const JUMPI: byte := 0x57
  const JUMPDEST: byte := 0x5b
  /** The third opcode that starts the analysis. */
  const JUMPSUB: byte := 0x5e

  /** How many bytes of push data follow an opcode. */
  function PushSize(op: byte): nat {
    if 0x60 <= op <= 0x7f then op - 0x5f else 0
  }

  predicate IsPush(op: byte) {
    0x60 <= op <= 0x7f
  }

  /** Is there an instruction at `i`, if there is one at `start`? (Yellow Paper, section 9.4.3.) */
  predicate Boundary(code: Bytes, start: nat, i: nat)
    decreases |code| - start
  {
    start == i || (start < i && start < |code| && Boundary(code, start + 1 + PushSize(code[start]), i))
  }

  predicate ValidJump(code: Bytes, dest: nat) {
    dest < |code| && Boundary(code, 0, dest) && code[dest] == JUMPDEST
  }

  /** The bytes of `code` from `from`, at most `n` of them: `slice` and `subarray`. */
  function Cut(code: Bytes, from: nat, n: nat): Bytes {
    if from >= |code| then [] else if from + n >= |code| then code[from..] else code[from..from + n]
  }

  function PushData(code: Bytes, i: nat): nat
    requires i < |code|
  {
    FromBigEndian(Cut(code, i + 1, PushSize(code[i])))
  }

  // ---------------------------------------------------------------------------------------
  // The analysis
  // ---------------------------------------------------------------------------------------

  /** Instructions follow one another: from a boundary, the next one is the only one up to its end. */
  lemma {:induction false} BoundaryStep(code: Bytes, start: nat, i: nat, j: nat)
    requires Boundary(code, start, i) && i < |code|
    ensures Boundary(code, start, i + 1 + PushSize(code[i]))
    ensures i < j < i + 1 + PushSize(code[i]) ==> !Boundary(code, start, j)
    decreases |code| - start
  {
    if start < i {
      BoundaryStep(code, start + 1 + PushSize(code[start]), i, j);
    }
  }

  /** What the arrays say about the code up to `end`. */
  ghost predicate Analysed(code: Bytes, lookup: byte -> byte, jumps: seq<nat>, pushes: map<nat, nat>,
                           opcodesCached: seq<Option<byte>>, end: nat)
  {
    && |jumps| == |opcodesCached| == |code|
    && (forall p :: p in pushes ==> 0 < p <= |code| && Found(code, end, p - 1) && IsPush(code[p - 1]))
    && forall i: nat | i < |code| :: AnalysedAt(code, lookup, jumps, pushes, opcodesCached, end, i)
  }

  /** The analysis has come to an instruction here. */
  predicate Found(code: Bytes, end: nat, i: nat) {
    i < end && Boundary(code, 0, i)
  }

  predicate AnalysedAt(code: Bytes, lookup: byte -> byte, jumps: seq<nat>, pushes: map<nat, nat>,
                       opcodesCached: seq<Option<byte>>, end: nat, i: nat)
    requires i < |code| == |jumps| == |opcodesCached|
  {
    var found := Found(code, end, i);
    && jumps[i] == (if found && code[i] == JUMPDEST then 1 else 0)
    && opcodesCached[i] == (if found then Some(lookup(code[i])) else None)
    && (found && IsPush(code[i]) ==> i + 1 in pushes && pushes[i + 1] == PushData(code, i))
  }

  /** `_getValidJumpDestinations` (interpreter.ts:512-535). */
  method GetValidJumpDestinations(code: Bytes, lookup: byte -> byte)
    returns (jumps: array<nat>, pushes: map<nat, nat>, opcodesCached: array<Option<byte>>)
    ensures fresh(jumps) && fresh(opcodesCached)
    ensures Analysed(code, lookup, jumps[..], pushes, opcodesCached[..], |code|)
  {
    hide Analysed, Boundary, FromBigEndian, Cut;
    jumps := new nat[|code|](_ => 0);
    opcodesCached := new Option<byte>[|code|](_ => None);
    pushes := map[];
    var i := 0;
    AnalysedNothing(code, lookup, jumps[..], opcodesCached[..]);
    while i < |code|
      invariant i >= |code| || Boundary(code, 0, i)
      invariant Analysed(code, lookup, jumps[..], pushes, opcodesCached[..], i)
      decreases |code| - i
    {
      ghost var jumpsBefore, cachedBefore := jumps[..], opcodesCached[..];
      AnalyseOne(code, lookup, jumpsBefore, pushes, cachedBefore, i);
      var opcode := code[i];
      opcodesCached[i] := Some(lookup(opcode));
      assert opcodesCached[..] == cachedBefore[i := Some(lookup(opcode))];
      if opcode <= 0x7f {
        if opcode >= 0x60 {
          var extraSteps := opcode - 0x5f;
          var push := FromBigEndian(Cut(code, i + 1, extraSteps));
          pushes := pushes[i + 1 := push];
          i := i + extraSteps;
        } else if opcode == JUMPDEST {
          jumps[i] := 1;
          assert jumps[..] == jumpsBefore[i := 1];
        }
      }
      i := i + 1;
    }
    AnalysedToEnd(code, lookup, jumps[..], pushes, opcodesCached[..], i);
  }

  lemma {:induction false} AnalysedNothing(code: Bytes, lookup: byte -> byte, jumps: seq<nat>,
                                           opcodesCached: seq<Option<byte>>)
    requires |jumps| == |opcodesCached| == |code|
    requires forall i | 0 <= i < |code| :: jumps[i] == 0 && opcodesCached[i] == None
    ensures Analysed(code, lookup, jumps, map[], opcodesCached, 0)
    ensures Boundary(code, 0, 0)
  {
    hide PushData;
  }

  /** One instruction more. */
  lemma {:induction false} AnalyseOne(code: Bytes, lookup: byte -> byte, jumps: seq<nat>, pushes: map<nat, nat>,
                                      opcodesCached: seq<Option<byte>>, i: nat)
    requires i < |code| && Boundary(code, 0, i) && Analysed(code, lookup, jumps, pushes, opcodesCached, i)
    ensures |jumps| == |opcodesCached| == |code|
    ensures var op, next := code[i], i + 1 + PushSize(code[i]);
            && Boundary(code, 0, next)
            && Analysed(code, lookup, if op == JUMPDEST then jumps[i := 1] else jumps,
                        if IsPush(op) then pushes[i + 1 := PushData(code, i)] else pushes,
                        opcodesCached[i := Some(lookup(op))], next)
  {
    FoundNext(code, i);
    hide Boundary, Found, PushData;
    var op, next := code[i], i + 1 + PushSize(code[i]);
    var jumps', cached' := if op == JUMPDEST then jumps[i := 1] else jumps, opcodesCached[i := Some(lookup(op))];
    var pushes' := if IsPush(op) then pushes[i + 1 := PushData(code, i)] else pushes;
    forall j: nat | j < |code| ensures AnalysedAt(code, lookup, jumps', pushes', cached', next, j) {
      assert AnalysedAt(code, lookup, jumps, pushes, opcodesCached, i, j);
      assert Found(code, next, j) <==> j == i || Found(code, i, j);
    }
  }

  lemma {:induction false} FoundNext(code: Bytes, i: nat)
    requires i < |code| && Boundary(code, 0, i)
    ensures Boundary(code, 0, i + 1 + PushSize(code[i]))
    ensures forall j: nat :: Found(code, i + 1 + PushSize(code[i]), j) <==> j == i || Found(code, i, j)
  {
    var next := i + 1 + PushSize(code[i]);
    BoundaryStep(code, 0, i, i);
    forall j: nat ensures Found(code, next, j) <==> j == i || Found(code, i, j) {
      if i < j < next {
        BoundaryStep(code, 0, i, j);
      }
    }
  }

  /** Past the end there is nothing left to say. */
  lemma {:induction false} AnalysedToEnd(code: Bytes, lookup: byte -> byte, jumps: seq<nat>, pushes: map<nat, nat>,
                                         opcodesCached: seq<Option<byte>>, end: nat)
    requires end >= |code| && Analysed(code, lookup, jumps, pushes, opcodesCached, end)
    ensures Analysed(code, lookup, jumps, pushes, opcodesCached, |code|)
  {
    forall i: nat | i < |code| ensures AnalysedAt(code, lookup, jumps, pushes, opcodesCached, |code|, i) {
      assert AnalysedAt(code, lookup, jumps, pushes, opcodesCached, end, i);
    }
  }

  /** What the caches hold at an instruction, and for any destination. */
  lemma {:induction false} CacheAt(code: Bytes, lookup: byte -> byte, jumps: seq<nat>, pushes: map<nat, nat>,
                                   opcodesCached: seq<Option<byte>>, pc: nat, dest: nat)
    requires Analysed(code, lookup, jumps, pushes, opcodesCached, |code|)
    requires pc < |code| && Boundary(code, 0, pc)
    ensures pc < |opcodesCached| && opcodesCached[pc] == Some(lookup(code[pc]))
    ensures IsPush(code[pc]) ==> pc + 1 in pushes && pushes[pc + 1] == PushData(code, pc)
    ensures ValidJump(code, dest) <==> dest < |jumps| && jumps[dest] == 1
  {
    assert AnalysedAt(code, lookup, jumps, pushes, opcodesCached, |code|, pc);
    if dest < |code| {
      assert AnalysedAt(code, lookup, jumps, pushes, opcodesCached, |code|, dest);
    }
  }

  // ---------------------------------------------------------------------------------------
  // Runs
  // ---------------------------------------------------------------------------------------

  /** What an operation pops that matters here: a destination, and whether a conditional jump is taken. */
  datatype Popped = Popped(dest: nat, taken: bool)

  /** An operation that is run: where, what the table says of it, and what it pushes from the code. */
  datatype Event = Event(pc: nat, entry: byte, pushed: Option<nat>)

  datatype Next = At(pc: nat) | InvalidJump

  predicate Jumps(op: byte, popped: Popped) {
    op == JUMP || (op == JUMPI && popped.taken)
  }

  /** Decoding afresh: the program counter after the instruction at `pc`. */
  function After(code: Bytes, pc: nat, popped: Popped): Next
    requires pc < |code|
  {
    if Jumps(code[pc], popped) then (if ValidJump(code, popped.dest) then At(popped.dest) else InvalidJump)
    else At(pc + 1 + PushSize(code[pc]))
  }

  /** Running `code` from `pc` by decoding every instruction afresh, until the code ends, a jump is invalid, or
      there is nothing more to pop. */
  function DirectRun(code: Bytes, lookup: byte -> byte, pc: nat, answers: seq<Popped>): (seq<Event>, Next)
    decreases |answers|
  {
    if answers == [] || pc >= |code| then ([], At(pc))
    else
      var event := Event(pc, lookup(code[pc]), if IsPush(code[pc]) then Some(PushData(code, pc)) else None);
      match After(code, pc, answers[0])
      case InvalidJump => ([event], InvalidJump)
      case At(next) =>
        var rest := DirectRun(code, lookup, next, answers[1..]);
        ([event] + rest.0, rest.1)
  }

  /** The table gives a defined opcode itself, and 0xfe for one that is not defined; jumps, their destination
      and pushes are always defined. */
  ghost predicate GoodTable(lookup: byte -> byte) {
    forall op: byte ::
      && (lookup(op) == op || lookup(op) == 0xfe)
      && (op in {JUMP, JUMPI, JUMPDEST} || IsPush(op) ==> lookup(op) == op)
  }

  lemma {:induction false} GoodEntry(lookup: byte -> byte, op: byte)
    requires GoodTable(lookup)
    ensures MayJump(lookup(op)) <==> MayJump(op)
    ensures IsPush(lookup(op)) <==> IsPush(op)
    ensures lookup(op) == op || !MayJump(op)
  {}

  predicate MayJump(op: byte) {
    op == JUMP || op == JUMPI
  }

  /** From an instruction, one always comes to an instruction or past the end. */
  lemma {:induction false} AfterIsBoundary(code: Bytes, pc: nat, popped: Popped)
    requires pc < |code| && Boundary(code, 0, pc)
    ensures After(code, pc, popped).At? ==> Boundary(code, 0, After(code, pc, popped).pc)
  {
    BoundaryStep(code, 0, pc, pc);
  }

  /** Every program counter of a run is at an instruction. */
  lemma {:induction false} RunsOnBoundaries(code: Bytes, lookup: byte -> byte, pc: nat, answers: seq<Popped>, k: nat)
    requires Boundary(code, 0, pc) && k < |DirectRun(code, lookup, pc, answers).0|
    ensures var event := DirectRun(code, lookup, pc, answers).0[k];
            event.pc < |code| && Boundary(code, 0, event.pc) && event.entry == lookup(code[event.pc])
    decreases |answers|
  {
    if k > 0 {
      AfterIsBoundary(code, pc, answers[0]);
      RunsOnBoundaries(code, lookup, After(code, pc, answers[0]).pc, answers[1..], k - 1);
    }
  }

  /** Running the rest, event by event from the front. */
  lemma {:induction false} RunFurther(done: seq<Event>, event: Event, rest: seq<Event>)
    ensures done + ([event] + rest) == (done + [event]) + rest
  {}

  class Runner {
    const code: Bytes
    const lookup: byte -> byte
    var programCounter: nat
    var shouldDoJumpAnalysis: bool
    var validJumps: array<nat>
    var cachedPushes: map<nat, nat>
    var cachedOpcodes: array<Option<byte>>

    /** At an instruction or past the end; the caches are ready once the analysis has been done. */
    ghost predicate Valid()
      reads this, validJumps, cachedOpcodes
    {
      && GoodTable(lookup)
      && (programCounter < |code| ==> Boundary(code, 0, programCounter))
      && (!shouldDoJumpAnalysis ==> Analysed(code, lookup, validJumps[..], cachedPushes, cachedOpcodes[..], |code|))
    }

    constructor (code: Bytes, lookup: byte -> byte)
      requires GoodTable(lookup)
      ensures Valid() && programCounter == 0 && this.code == code && this.lookup == lookup
      ensures fresh(validJumps) && fresh(cachedOpcodes)
    {
      this.code, this.lookup := code, lookup;
      programCounter, shouldDoJumpAnalysis, cachedPushes := 0, true, map[];
      validJumps, cachedOpcodes := new nat[0], new Option<byte>[0];
    }

    /** The loop of `run` (interpreter.ts:279-345), as far as it decodes: the analysis is put off until the first
        jump, and from then on only the caches are read. */
    method Run(answers: seq<Popped>) returns (events: seq<Event>, end: Next)
      requires Valid()
      modifies this
      ensures (events, end) == DirectRun(code, lookup, old(programCounter), answers)
    {
      ghost var all := DirectRun(code, lookup, programCounter, answers);
      events := [];
      var i := 0;
      assert answers[0..] == answers && [] + all.0 == all.0;
      while i < |answers| && programCounter < |code|
        invariant Valid() && 0 <= i <= |answers|
        invariant all == Behind(events, DirectRun(code, lookup, programCounter, answers[i..]))
      {
        hide Valid;
        ghost var pc := programCounter;
        assert answers[i..][1..] == answers[i + 1..];
        var event, next := RunStep(answers[i]);
        RunFurther(events, event, DirectRun(code, lookup, pc, answers[i..]).0[1..]);
        events := events + [event];
        i := i + 1;
        if next.InvalidJump? {
          return events, InvalidJump;
        }
      }
      end := At(programCounter);
      assert events + [] == events;
    }

    /** A run that comes after some events. */
    static ghost function Behind(done: seq<Event>, run: (seq<Event>, Next)): (seq<Event>, Next) {
      (done + run.0, run.1)
    }

    /** Decoding one instruction, from the code or from the caches, and running its handler (functions.ts:839-876,
        949-979). */
    method RunStep(popped: Popped) returns (event: Event, next: Next)
      requires Valid() && programCounter < |code|
      modifies this
      ensures Valid()
      ensures event == Event(old(programCounter), lookup(code[old(programCounter)]),
                             if IsPush(code[old(programCounter)]) then Some(PushData(code, old(programCounter)))
                               else None)
      ensures next == After(code, old(programCounter), popped) && (next.At? ==> programCounter == next.pc)
    {
      var pc := programCounter;
      GoodEntry(lookup, code[pc]);
      AfterIsBoundary(code, pc, popped);
      BoundaryStep(code, 0, pc, pc);
      var opCode, entry := Decode();
      if !shouldDoJumpAnalysis {
        CacheAt(code, lookup, validJumps[..], cachedPushes, cachedOpcodes[..], pc, popped.dest);
      }
      hide Analysed, Boundary, GoodTable, FromBigEndian, Cut;
      programCounter := programCounter + 1;
      var pushed: Option<nat> := None;
      if IsPush(opCode) {
        if shouldDoJumpAnalysis {
          pushed := Some(FromBigEndian(Cut(code, programCounter, opCode - 0x5f)));
        } else {
          pushed := Some(cachedPushes[programCounter]);
        }
        programCounter := programCounter + (opCode - 0x5f);
      }
      event := Event(pc, entry, pushed);
      if opCode == JUMP || (opCode == JUMPI && popped.taken) {
        if popped.dest >= |code| || validJumps[popped.dest] != 1 {
          return event, InvalidJump;
        }
        programCounter := popped.dest;
      }
      next := At(programCounter);
    }

    /** The opcode and the table entry at the program counter (interpreter.ts:281-300). */
    method Decode() returns (opCode: byte, entry: byte)
      requires Valid() && programCounter < |code|
      modifies this
      ensures Valid() && programCounter == old(programCounter)
      ensures entry == lookup(code[programCounter]) && (opCode == code[programCounter] || opCode == entry)
      ensures MayJump(opCode) ==> !shouldDoJumpAnalysis
    {
      if shouldDoJumpAnalysis {
        opCode := code[programCounter];
        entry := lookup(opCode);
        if opCode == JUMP || opCode == JUMPI || opCode == JUMPSUB {
          validJumps, cachedPushes, cachedOpcodes := GetValidJumpDestinations(code, lookup);
          shouldDoJumpAnalysis := false;
        }
      } else {
        CacheAt(code, lookup, validJumps[..], cachedPushes, cachedOpcodes[..], programCounter, 0);
        entry := cachedOpcodes[programCounter].value;
        opCode := entry;
      }
    }
  }
}
