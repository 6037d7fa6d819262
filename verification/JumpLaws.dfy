/** What a run over bytecode pushes and where it goes, in terms of the bytes of the code. */
module JumpLaws {
  import opened Wrappers
  import opened Rlp
  import opened RlpLayout
  import opened JumpAnalysis

  /** The bytes after an instruction, as a number: the code from `from` on, `n` bytes or as many as there are. */
  function Number(code: Bytes, from: nat, n: nat): nat
    requires from + n <= |code|
    decreases n
  {
    if n == 0 then 0 else code[from] * Pow256(n - 1) + Number(code, from + 1, n - 1)
  }

  lemma {:induction false} NumberIsPositional(code: Bytes, from: nat, n: nat)
    requires from + n <= |code|
    ensures Number(code, from, n) == Positional(code[from..from + n])
    decreases n
  {
    if n > 0 {
      NumberIsPositional(code, from + 1, n - 1);
      assert code[from..from + n][1..] == code[from + 1..from + 1 + (n - 1)];
    }
  }

  /** How many bytes PUSH1 to PUSH32 find after them. */
  function Available(code: Bytes, pc: nat): nat
    requires pc < |code|
  {
    var size := code[pc] as int - 0x60 + 1;
    if size < 1 || size > 32 then 0
    else if pc + 1 + size <= |code| then size
    else |code| - pc - 1
  }

  lemma {:induction false} PushDataIsNumber(code: Bytes, pc: nat)
    requires pc < |code|
    ensures pc + 1 + Available(code, pc) <= |code|
    ensures PushData(code, pc) == Number(code, pc + 1, Available(code, pc))
  {
    var n := Available(code, pc);
    NumberIsPositional(code, pc + 1, n);
    FromBigEndianIsPositional(code[pc + 1..pc + 1 + n]);
    assert Cut(code, pc + 1, PushSize(code[pc])) == code[pc + 1..pc + 1 + n];
  }

  /** In every run, PUSH1 to PUSH32 and nothing else push from the code, namely the number that the bytes after them
      make up; cached or not, since both ways of running give this run. */
  lemma {:induction false} PushedIsNumber(code: Bytes, lookup: byte -> byte, pc: nat, answers: seq<Popped>, k: nat)
    requires k < |DirectRun(code, lookup, pc, answers).0|
    ensures var event := DirectRun(code, lookup, pc, answers).0[k];
            && event.pc < |code| && event.pc + 1 + Available(code, event.pc) <= |code|
            && event.pushed == if 0x60 <= code[event.pc] <= 0x7f
                               then Some(Number(code, event.pc + 1, Available(code, event.pc))) else None
    decreases |answers|
  {
    if k == 0 {
      PushDataIsNumber(code, pc);
    } else {
      PushedIsNumber(code, lookup, After(code, pc, answers[0]).pc, answers[1..], k - 1);
    }
  }

  /** Does the instruction at `pc` leave the straight way? */
  predicate Leaps(code: Bytes, pc: nat, popped: Popped)
    requires pc < |code|
  {
    code[pc] == 0x56 || (code[pc] == 0x57 && popped.taken)
  }

  /** From one operation of a run to the next: straight on past the push data, or, at a JUMP or a JUMPI that is taken,
      to the destination that was popped, which is a JUMPDEST and no push data. */
  lemma {:induction false} RunGoesOn(code: Bytes, lookup: byte -> byte, pc: nat, answers: seq<Popped>, k: nat)
    requires Boundary(code, 0, pc) && k + 1 < |DirectRun(code, lookup, pc, answers).0|
    ensures var events := DirectRun(code, lookup, pc, answers).0;
            var here, next := events[k].pc, events[k + 1].pc;
            && here < |code| && next < |code| && k < |answers|
            && if Leaps(code, here, answers[k])
               then next == answers[k].dest && code[next] == 0x5b && Boundary(code, 0, next)
               else next == here + 1 + Available(code, here)
    decreases |answers|
  {
    AfterIsBoundary(code, pc, answers[0]);
    if k == 0 {
      PushDataIsNumber(code, pc);
    } else {
      RunGoesOn(code, lookup, After(code, pc, answers[0]).pc, answers[1..], k - 1);
    }
  }

  /** A run ends at an invalid jump exactly when its last operation leaps to where no JUMPDEST is an instruction. */
  lemma {:induction false} RunEndsBadly(code: Bytes, lookup: byte -> byte, pc: nat, answers: seq<Popped>)
    ensures var (events, end) := DirectRun(code, lookup, pc, answers);
            var last := |events| - 1;
            && |events| <= |answers|
            && (end.InvalidJump? <==>
                  events != [] && events[last].pc < |code| && Leaps(code, events[last].pc, answers[last])
                  && !ValidJump(code, answers[last].dest))
    decreases |answers|
  {
    if answers != [] && pc < |code| && After(code, pc, answers[0]).At? {
      RunEndsBadly(code, lookup, After(code, pc, answers[0]).pc, answers[1..]);
    }
  }
}
