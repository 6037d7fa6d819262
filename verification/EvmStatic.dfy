/** A static call changes nothing (EIP-214): where no handler writes in a static frame, nothing below a static call
    does, however deep the calls go. */
module EvmStatic {
  import opened Wrappers
  import opened JournalLog
  import opened EvmTypes
  import opened EvmSpec

  /** What the handlers refuse in a static frame (functions.ts:916, 1278, 1396 and gas.ts). CALLCODE may send ether,
      since it stays with the contract; a static call sends none. */
  predicate Writes(action: Action) {
    || action.SStore? || action.TStore? || action.Emit? || action.CreateWith? || action.Destroy?
    || (action.CallTo? && (action.kind.Call? || action.kind.StaticCall?) && action.amount != 0)
  }

  ghost predicate RefusesWrites(cfg: Config) {
    forall f: Frame, w :: f.env.isStatic ==> !Writes(cfg.handler(f, w).action)
  }

  lemma {:induction false} Refused(cfg: Config, f: Frame, w: World)
    requires RefusesWrites(cfg) && f.env.isStatic
    ensures !Writes(cfg.handler(f, w).action)
  {}

  /** The same accounts, an empty one counting as none; the same code and storage. */
  ghost predicate Same(cfg: Config, w: World, w': World) {
    && (forall a :: AccountOr(cfg, w', a) == AccountOr(cfg, w, a))
    && w'.codes == w.codes && w'.storage == w.storage && w'.transient == w.transient
  }

  /** Nor has anything been gathered. */
  ghost predicate SameFrame(cfg: Config, f: Frame, w: World, f': Frame, w': World) {
    Same(cfg, w, w') && f'.result == f.result.(returnValue := f'.result.returnValue) && f'.env.isStatic
  }

  lemma {:induction false} SameThrough(cfg: Config, a: World, b: World, c: World)
    requires Same(cfg, a, b) && Same(cfg, b, c)
    ensures Same(cfg, a, c)
  {}

  /** A static message that pays nothing, or only its own sender. */
  predicate Quiet(msg: Message) {
    && msg.isStatic && msg.depth > 0 && msg.to.Some?
    && (msg.delegatecall || msg.value == 0 || msg.to == Some(msg.caller))
  }

  lemma {:induction false} TransferIsSame(cfg: Config, w: World, msg: Message)
    requires MessageOk(cfg, w, msg) && Quiet(msg) && Transferred(cfg, w, msg).1.None?
    ensures Same(cfg, w, Transferred(cfg, w, msg).0)
  {
    hide PrecompilesOk, Keeps;
  }

  /** The theorem: whatever a static call runs, and however it ends, the state is as before but for warm and touched
      addresses, and its result has no logs and no more contracts to destroy or created. */
  lemma {:induction false} StaticChangesNothing(cfg: Config, w: World, msg: Message)
    requires MessageOk(cfg, w, msg) && RefusesWrites(cfg) && Quiet(msg)
    ensures var o := RunCall(cfg, w, msg);
            && Same(cfg, w, o.world) && o.result.logs == [] && o.burned == 0
            && o.result.selfdestruct <= msg.selfdestruct && o.result.created <= msg.created
    decreases cfg.stackLimit - msg.depth, 7, 0
  {
    hide PrecompilesOk, Keeps, RefusesWrites, Transferred, ExecuteCode, Same;
    var (w1, error) := Transferred(cfg, w, msg);
    SameSelf(cfg, w);
    if error.None? {
      TransferIsSame(cfg, w, msg);
      var codeAddress := msg.codeAddress.UnwrapOr(msg.to.value);
      CodeIsSame(cfg, w1, msg, codeAddress);
      if ExecuteCode(cfg, w1, msg, codeAddress).result.error.None? {
        SameThrough(cfg, w, w1, ExecuteCode(cfg, w1, msg, codeAddress).world);
      }
    }
    NestedSettles(cfg, w, msg, ExecuteCall(cfg, w, msg));
  }

  lemma {:induction false} SameSelf(cfg: Config, w: World)
    ensures Same(cfg, w, w)
  {}

  lemma {:induction false} NestedSettles(cfg: Config, w: World, msg: Message, o: Outcome)
    requires o.result.error.None? ==> Same(cfg, w, o.world) && o.result.logs == [] && o.burned == 0
    requires o.result.error != Some(CodestoreOutOfGas) && !o.cleared
    requires o.result.selfdestruct <= msg.selfdestruct && o.result.created <= msg.created
    ensures var r := Settled(cfg, w, msg, o);
            && Same(cfg, w, r.world) && r.result.logs == [] && r.burned == 0
            && r.result.selfdestruct <= msg.selfdestruct && r.result.created <= msg.created
  {
    hide Keeps;
  }

  lemma {:induction false} CodeIsSame(cfg: Config, w: World, msg: Message, codeAddress: Address)
    requires GoodConfig(cfg) && msg.depth <= cfg.stackLimit && msg.to.Some? && GetAccount(w, msg.to.value).Some?
    requires RefusesWrites(cfg) && msg.isStatic && msg.depth > 0
    ensures var o := ExecuteCode(cfg, w, msg, codeAddress);
            && !o.cleared && o.result.selfdestruct <= msg.selfdestruct && o.result.created <= msg.created
            && (o.result.error.None? ==> Same(cfg, w, o.world) && o.result.logs == [] && o.burned == 0)
    decreases cfg.stackLimit - msg.depth, 5, 1
  {
    hide PrecompilesOk, Keeps, RefusesWrites, Same, RunFrom;
    var code := msg.code.UnwrapOr(GetCode(w, codeAddress));
    SameSelf(cfg, w);
    if !(msg.code.None? && cfg.isPrecompile(codeAddress)) && code != [] {
      FrameIsSame(cfg, FirstFrame(cfg, w, msg.(code := Some(code)), false), w);
    }
  }

  lemma {:induction false} FrameIsSame(cfg: Config, f: Frame, w: World)
    requires FrameOk(cfg, f, w) && RefusesWrites(cfg) && f.env.isStatic && f.env.depth > 0
    ensures var end := RunFrom(cfg, f, w);
            SameFrame(cfg, f, w, end.frame, end.world) && end.burned == 0
    decreases cfg.stackLimit - f.env.depth, 4, f.run.gasLeft
  {
    hide PrecompilesOk, Keeps, RefusesWrites, Same, Dispatched;
    var step := cfg.handler(f, w);
    Refused(cfg, f, w);
    var cost := Cost(cfg, step);
    SameSelf(cfg, w);
    if f.run.gasLeft >= cost {
      var f1 := f.(run := f.run.(gasLeft := f.run.gasLeft - cost, local := step.local));
      ActionIsSame(cfg, f1, w, step.action);
      var turn := RunStep(cfg, f, w);
      if turn.Goes? {
        FrameIsSame(cfg, turn.frame, turn.world);
        SameThrough(cfg, w, turn.world, RunFrom(cfg, turn.frame, turn.world).world);
      }
    }
  }

  lemma {:induction false} ActionIsSame(cfg: Config, f: Frame, w: World, action: Action)
    requires FrameOk(cfg, f, w) && RefusesWrites(cfg) && f.env.isStatic && !Writes(action)
    ensures var turn := Dispatched(cfg, f, w, action);
            SameFrame(cfg, f, w, turn.frame, turn.world) && turn.burned == 0
    decreases cfg.stackLimit - f.env.depth, 2, 2
  {
    hide PrecompilesOk, Keeps, RefusesWrites, BaseCall;
    if action.CallTo? {
      if action.gas <= f.run.gasLeft {
        var stipend := if action.Transfers() then cfg.callStipendGas else 0;
        var f1 := f.(run := f.run.(gasLeft := f.run.gasLeft + stipend));
        var msg := CallMessage(f1, action.kind, action.gas + stipend, action.address, action.amount, action.data);
        CallIsSame(cfg, f1, w, msg);
      }
    }
  }

  lemma {:induction false} CallIsSame(cfg: Config, f: Frame, w: World, msg: Message)
    requires FrameOk(cfg, f, w) && msg.depth == f.env.depth + 1 && msg.gasLimit <= f.run.gasLeft
    requires msg.to.Some? && (msg.delegatecall ==> msg.to.value == f.env.address)
    requires RefusesWrites(cfg) && f.env.isStatic && Quiet(msg)
    ensures var turn := BaseCall(cfg, f, w, msg);
            SameFrame(cfg, f, w, turn.frame, turn.world) && turn.burned == 0
    decreases cfg.stackLimit - f.env.depth, 2, 0
  {
    hide PrecompilesOk, Keeps, RefusesWrites, Same, RunCall;
    SameSelf(cfg, w);
    if !(f.env.depth >= cfg.stackLimit || (!msg.delegatecall && f.env.contract.balance < msg.value)) {
      StaticChangesNothing(cfg, w, Sent(cfg, f, msg));
      assert f.result.logs + [] == f.result.logs;
    }
  }
}
