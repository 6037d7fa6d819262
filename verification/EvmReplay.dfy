/** Every call tree leaves what the replay of its surviving deeds leaves, and costs and answers as it is told. */
module EvmReplay {
  import opened Wrappers
  import opened JournalLog
  import opened EvmTypes
  import opened EvmSpec
  import opened EvmStory
  import opened EvmLaws

  // ---------------------------------------------------------------------------------------
  // Ledgers
  // ---------------------------------------------------------------------------------------

  function LedgerOf(w: World, logs: seq<LogEntry>, destroyed: set<Address>, created: set<Address>,
                    refund: int): Ledger {
    Ledger(w.accounts, w.codes, w.storage, w.transient, w.warm, w.touched - {RIPEMD160}, logs, destroyed, created,
           refund)
  }

  function MessageLedger(w: World, msg: Message): Ledger {
    LedgerOf(w, [], msg.selfdestruct, msg.created, msg.gasRefund)
  }

  function FrameLedger(f: Frame, w: World): Ledger {
    LedgerOf(w, f.result.logs, f.result.selfdestruct, f.result.created, f.run.gasRefund)
  }

  function OutcomeLedger(o: Outcome): Ledger {
    LedgerOf(o.world, o.result.logs, o.result.selfdestruct, o.result.created, o.result.gasRefund)
  }

  lemma {:induction false} ReplayBoth(cfg: Config, l: Ledger, first: seq<Deed>, then': seq<Deed>)
    ensures Replay(cfg, l, first + then') == Replay(cfg, Replay(cfg, l, first), then')
    decreases |first|
  {
    hide Apply;
    if first == [] {
      assert first + then' == then';
    } else {
      assert (first + then')[0] == first[0] && (first + then')[1..] == first[1..] + then';
      ReplayBoth(cfg, Apply(cfg, l, first[0]), first[1..], then');
    }
  }

  lemma {:induction false} ReplayOne(cfg: Config, l: Ledger, deed: Deed)
    ensures Replay(cfg, l, [deed]) == Apply(cfg, l, deed)
  {
    assert [deed][1..] == [];
    assert Replay(cfg, Apply(cfg, l, deed), []) == Apply(cfg, l, deed);
  }

  /** The ledger of a frame and that of a message it sends: the message starts with no logs, and before EIP-6780
      without the created contracts. */
  predicate Shifted(cfg: Config, l: Ledger, l': Ledger, logs: seq<LogEntry>, created: set<Address>) {
    && l == l'.(logs := l.logs, created := l.created) && l.logs == logs + l'.logs
    && l.created == if cfg.eip6780 then l'.created else created
  }

  lemma {:induction false} DoneShifted(cfg: Config, l: Ledger, l': Ledger, logs: seq<LogEntry>, created: set<Address>,
                                       at: Address, action: Action)
    requires Shifted(cfg, l, l', logs, created)
    ensures Shifted(cfg, Done(cfg, l, at, action), Done(cfg, l', at, action), logs, created)
  {
    hide PutTransient, WithSweep, Touching;
    if action.Emit? {
      var entry := [LogEntry(at, action.topics, action.data)];
      assert logs + l'.logs + entry == logs + (l'.logs + entry);
    }
  }

  lemma {:induction false} ApplyShifted(cfg: Config, l: Ledger, l': Ledger, logs: seq<LogEntry>, created: set<Address>,
                                        deed: Deed)
    requires Shifted(cfg, l, l', logs, created)
    ensures Shifted(cfg, Apply(cfg, l, deed), Apply(cfg, l', deed), logs, created)
  {
    hide Done, WithNonce, WithPayment, WithCode, Touching;
    if deed.Did? {
      DoneShifted(cfg, l, l', logs, created, deed.at, deed.action);
    }
  }

  lemma {:induction false} ReplayShifted(cfg: Config, l: Ledger, l': Ledger, logs: seq<LogEntry>,
                                         created: set<Address>, deeds: seq<Deed>)
    requires Shifted(cfg, l, l', logs, created)
    ensures Shifted(cfg, Replay(cfg, l, deeds), Replay(cfg, l', deeds), logs, created)
    decreases |deeds|
  {
    hide Apply, Shifted;
    if deeds != [] {
      ApplyShifted(cfg, l, l', logs, created, deeds[0]);
      ReplayShifted(cfg, Apply(cfg, l, deeds[0]), Apply(cfg, l', deeds[0]), logs, created, deeds[1..]);
    }
  }

  /** The log an operation emits. */
  function LogOf(deed: Deed): seq<LogEntry> {
    if deed.Did? && deed.action.Emit? then [LogEntry(deed.at, deed.action.topics, deed.action.data)] else []
  }

  predicate Destroys(deed: Deed) {
    deed.Did? && deed.action.Destroy?
  }

  /** A refund granted, or taken back. */
  function RefundOf(deed: Deed): int {
    if !deed.Did? then 0
    else if deed.action.AddRefund? then deed.action.amount
    else if deed.action.SubRefund? then 0 - deed.action.amount
    else 0
  }

  /** What one deed adds to what is gathered. */
  ghost predicate GathersDeed(cfg: Config, l: Ledger, deed: Deed, end: Ledger) {
    && end.logs == l.logs + LogOf(deed)
    && end.destroyed == l.destroyed + (if Destroys(deed) then {deed.at} else {})
    && end.created == l.created + (if cfg.eip6780 && deed.Began? then {deed.address} else {})
    && end.refund == l.refund + RefundOf(deed)
         + if Destroys(deed) && deed.at !in l.destroyed then cfg.selfdestructRefundGas else 0
  }

  lemma {:induction false} DeedGathers(cfg: Config, l: Ledger, deed: Deed)
    ensures GathersDeed(cfg, l, deed, Apply(cfg, l, deed))
  {
    hide Done, WithNonce, WithPayment, WithCode, Touching;
    if deed.Did? {
      DoneGathers(cfg, l, deed.at, deed.action);
    }
  }

  lemma {:induction false} DoneGathers(cfg: Config, l: Ledger, at: Address, action: Action)
    ensures GathersDeed(cfg, l, Did(at, action), Done(cfg, l, at, action))
  {
    hide WithSweep, Touching, PutTransient, SlotsOf;
    if action.Emit? {
    } else if action.Destroy? {
    } else {
    }
  }

  /** What has been gathered stays. */
  lemma {:induction false} ReplayGathers(cfg: Config, l: Ledger, deeds: seq<Deed>)
    ensures l.destroyed <= Replay(cfg, l, deeds).destroyed && l.created <= Replay(cfg, l, deeds).created
    decreases |deeds|
  {
    hide Apply;
    if deeds != [] {
      DeedGathers(cfg, l, deeds[0]);
      ReplayGathers(cfg, Apply(cfg, l, deeds[0]), deeds[1..]);
    }
  }

  // ---------------------------------------------------------------------------------------
  // Frames
  // ---------------------------------------------------------------------------------------

  /** One operation does what its story says. */
  ghost predicate TurnAsTold(cfg: Config, f: Frame, w: World, turn: Turn, s: Story) {
    && s.fate == (if turn.Ends? then Ended(turn.error) else Running)
    && turn.frame.run.gasLeft == f.run.gasLeft - s.gas
    && turn.frame.result.returnValue.UnwrapOr([]) == s.output
    && (turn.Goes? ==> turn.frame.result.returnValue.None?)
    && (turn.Goes? || turn.error.None? ==>
          FrameLedger(turn.frame, turn.world) == Replay(cfg, FrameLedger(f, w), s.deeds))
  }

  lemma {:induction false} SimpleAsTold(cfg: Config, f: Frame, w: World, action: Action)
    requires FrameOk(cfg, f, w) && !action.CallTo? && !action.CreateWith? && !action.Destroy?
    requires f.result.returnValue.None?
    ensures TurnAsTold(cfg, f, w, Simple(cfg, f, w, action), ActionStory(cfg, f, w, action))
  {
    hide PrecompilesOk, Keeps;
    ReplayOne(cfg, FrameLedger(f, w), Did(f.env.address, action));
  }

  lemma {:induction false} DestroyAsTold(cfg: Config, f: Frame, w: World, to: Address)
    requires FrameOk(cfg, f, w) && f.result.returnValue.None?
    ensures TurnAsTold(cfg, f, w, SelfDestruct(cfg, f, w, to), ActionStory(cfg, f, w, Destroy(to)))
  {
    hide PrecompilesOk, Keeps, ActionStory;
    ReplayOne(cfg, FrameLedger(f, w), Did(f.env.address, Destroy(to)));
    DestroyStory(cfg, f, w, to);
    assert w.touched + {to} - {RIPEMD160} == Touching(w.touched - {RIPEMD160}, to);
  }

  lemma {:induction false} DestroyStory(cfg: Config, f: Frame, w: World, to: Address)
    requires FrameOk(cfg, f, w)
    ensures ActionStory(cfg, f, w, Destroy(to)) == Story([Did(f.env.address, Destroy(to))], 0, [], Ended(None))
  {
    hide PrecompilesOk, Keeps;
  }

  // ---------------------------------------------------------------------------------------
  // Messages
  // ---------------------------------------------------------------------------------------

  /** The error, the gas and the data are those told. */
  predicate Answers(o: Outcome, s: Story) {
    s.fate == Ended(o.result.error) && o.result.gasUsed == s.gas && o.result.returnValue == s.output
  }

  /** State and results are those of the replay; a transaction clears transient storage in the end. */
  predicate Leaves(cfg: Config, o: Outcome, l: Ledger, deeds: seq<Deed>) {
    var end := Replay(cfg, l, deeds);
    OutcomeLedger(o) == if o.cleared then end.(transient := map[]) else end
  }

  /** The address that stays touched is not in a ledger. */
  lemma {:induction false} TouchedInLedger(touched: set<Address>, a: Address)
    ensures touched + {a} - {RIPEMD160} == Touching(touched - {RIPEMD160}, a)
  {}

  lemma {:induction false} BeforeAsTold(cfg: Config, w: World, msg: Message, logs: seq<LogEntry>,
                                        destroyed: set<Address>, created: set<Address>, refund: int)
    ensures LedgerOf(WarmCreated(cfg, CountTransaction(cfg, w, msg), msg).0, logs, destroyed, created, refund) ==
            Replay(cfg, LedgerOf(w, logs, destroyed, created, refund), Before(cfg, w, msg))
  {
    hide Keeps;
    var l := LedgerOf(w, logs, destroyed, created, refund);
    var w0 := CountTransaction(cfg, w, msg);
    var counted := if msg.depth == 0 then [Counted(msg.caller)] else [];
    var warmed := if msg.to.None? && cfg.eip2929
      then [Warmed(AddressFor(cfg, w0, msg.(code := Some(msg.data))))] else [];
    if msg.depth == 0 {
      TouchedInLedger(w.touched, msg.caller);
      ReplayOne(cfg, l, counted[0]);
    }
    assert LedgerOf(w0, logs, destroyed, created, refund) == Replay(cfg, l, counted);
    ReplayBoth(cfg, l, counted, warmed);
    if msg.to.None? && cfg.eip2929 {
      ReplayOne(cfg, Replay(cfg, l, counted), warmed[0]);
    }
  }

  /** What a payment that succeeds does to the ledger. */
  lemma {:induction false} PaymentAsTold(cfg: Config, w: World, msg: Message)
    requires MessageOk(cfg, w, msg) && msg.to.Some? && !msg.delegatecall && Transferred(cfg, w, msg).1.None?
    ensures MessageLedger(Transferred(cfg, w, msg).0, msg) ==
            Apply(cfg, MessageLedger(w, msg), Paid(msg.caller, msg.to.value, msg.value))
  {
    hide PrecompilesOk, Keeps;
    TouchedInLedger(w.touched, msg.caller);
    TouchedInLedger(w.touched + {msg.caller}, msg.to.value);
  }

  /** When it fails. */
  lemma {:induction false} PaymentFails(cfg: Config, w: World, msg: Message)
    requires MessageOk(cfg, w, msg) && msg.to.Some? && !msg.delegatecall
    ensures var have, held := AccountOr(cfg, w, msg.caller).balance, AccountOr(cfg, w, msg.to.value).balance;
            Transferred(cfg, w, msg).1 ==
            PaymentError(have, if msg.caller == msg.to.value && msg.value <= held then held - msg.value else held,
                         msg.value)
  {
    hide PrecompilesOk, Keeps;
  }

  lemma {:induction false} CallAsTold(cfg: Config, w: World, msg: Message)
    requires MessageOk(cfg, w, msg) && msg.to.Some?
    ensures var o, s := ExecuteCall(cfg, w, msg), CallStory(cfg, w, msg);
            && Answers(o, s)
            && (o.result.error.None? ==> Leaves(cfg, o, MessageLedger(w, msg), s.deeds))
    decreases cfg.stackLimit - msg.depth, 6, 0
  {
    hide PrecompilesOk, Keeps, CodeStory, ExecuteCode, Apply;
    var (w1, error) := Transferred(cfg, w, msg);
    if !msg.delegatecall {
      PaymentFails(cfg, w, msg);
    }
    if error.None? {
      var codeAddress := msg.codeAddress.UnwrapOr(msg.to.value);
      CodeAsTold(cfg, w1, msg, codeAddress);
      if !msg.delegatecall {
        var paid := Paid(msg.caller, msg.to.value, msg.value);
        PaymentAsTold(cfg, w, msg);
        ReplayOne(cfg, MessageLedger(w, msg), paid);
        ReplayBoth(cfg, MessageLedger(w, msg), [paid], CodeStory(cfg, w1, msg, codeAddress).deeds);
      }
    }
  }

  lemma {:induction false} CodeAsTold(cfg: Config, w: World, msg: Message, codeAddress: Address)
    requires GoodConfig(cfg) && msg.depth <= cfg.stackLimit && msg.to.Some? && GetAccount(w, msg.to.value).Some?
    ensures var o, s := ExecuteCode(cfg, w, msg, codeAddress), CodeStory(cfg, w, msg, codeAddress);
            && Answers(o, s)
            && (o.result.error.None? ==> Leaves(cfg, o, MessageLedger(w, msg), s.deeds))
    decreases cfg.stackLimit - msg.depth, 5, 1
  {
    hide PrecompilesOk, Keeps, Apply, RunInterpreter, FirstStory, RunPrecompile, LedgerOf, Leaves, Answers, Cleaned,
      Replay;
    var code := msg.code.UnwrapOr(GetCode(w, codeAddress));
    if msg.code.None? && cfg.isPrecompile(codeAddress) {
      PrecompileAsTold(cfg, w, msg, codeAddress);
    } else if code == [] {
      NothingAsTold(cfg, w, msg);
    } else {
      var msg1 := msg.(code := Some(code));
      FirstAsTold(cfg, w, msg1, false);
      CleanedAsTold(cfg, w, msg, RunInterpreter(cfg, w, msg1, false), FirstStory(cfg, w, msg1, false));
    }
  }

  lemma {:induction false} PrecompileAsTold(cfg: Config, w: World, msg: Message, codeAddress: Address)
    requires GoodConfig(cfg)
    ensures var p := cfg.precompile(codeAddress, msg.data, msg.gasLimit);
            var o := RunPrecompile(cfg, w, msg, codeAddress);
            && Answers(o, Story([], p.gasUsed, p.returnValue, Ended(p.error)))
            && Leaves(cfg, o, MessageLedger(w, msg), [])
  {
    hide PrecompilesOk, Keeps;
  }

  lemma {:induction false} NothingAsTold(cfg: Config, w: World, msg: Message)
    ensures var o := Outcome(w, Early(msg, 0, None), None, 0, false);
            Answers(o, Ending(None)) && Leaves(cfg, o, MessageLedger(w, msg), [])
  {}

  /** Cleaning up after a transaction. */
  lemma {:induction false} CleanedAsTold(cfg: Config, w: World, msg: Message, o: Outcome, s: Story)
    requires !o.cleared && Answers(o, s)
    ensures var o' := o.(world := Cleaned(cfg, o.world, msg.depth), cleared := msg.depth == 0 && cfg.eip1153);
            && Answers(o', s)
            && (Leaves(cfg, o, MessageLedger(w, msg), s.deeds) ==> Leaves(cfg, o', MessageLedger(w, msg), s.deeds))
  {
    hide Replay;
  }

  lemma {:induction false} FirstAsTold(cfg: Config, w: World, msg: Message, isCreate: bool)
    requires GoodConfig(cfg) && msg.depth <= cfg.stackLimit
    requires msg.to.Some? && msg.code.Some? && GetAccount(w, msg.to.value).Some?
    ensures var o, s := RunInterpreter(cfg, w, msg, isCreate), FirstStory(cfg, w, msg, isCreate);
            && Answers(o, s) && !o.cleared
            && (o.result.error.None? ==> Leaves(cfg, o, MessageLedger(w, msg), s.deeds))
    decreases cfg.stackLimit - msg.depth, 5, 0
  {
    hide PrecompilesOk, Keeps, Apply, RunFrom, FrameStory;
    var f := FirstFrame(cfg, w, msg, isCreate);
    FrameAsTold(cfg, f, w);
    assert FrameLedger(f, w) == MessageLedger(w, msg);
  }

  /** The debit, the new account and its endowment, in the accounts alone: the order of debit and new account does
      not matter. */
  lemma {:induction false} EndowedAccounts(cfg: Config, m: Accounts, from: Address, to: Address, value: nat,
                                           counted: nat)
    requires value <= Holder(cfg, m, from).balance
    ensures var m1 := WithBalance(cfg, m, from, Holder(cfg, m, from).balance - value);
            var account := Holder(cfg, m1, to);
            m1[to := Some(account)]
              [to := Some(account.(nonce := account.nonce + counted, balance := account.balance + value))] ==
            WithPayment(cfg, WithNonce(cfg, m, to, counted), from, to, value)
  {}

  lemma {:induction false} EndowmentAsTold(cfg: Config, w: World, msg: Message, to: Address)
    requires MessageOk(cfg, w, msg) && msg.to.None?
    requires Endowed(cfg, Debited(cfg, w, msg).0, msg.(to := Some(to))).1.None?
    ensures var created := if cfg.eip6780 then msg.created + {to} else msg.created;
            LedgerOf(Endowed(cfg, Debited(cfg, w, msg).0, msg.(to := Some(to))).0, [], msg.selfdestruct, created,
                     msg.gasRefund) ==
            Apply(cfg, Apply(cfg, MessageLedger(w, msg), Began(to)), Paid(msg.caller, to, msg.value))
  {
    hide PrecompilesOk, Keeps, WithPayment, WithNonce;
    EndowedAccounts(cfg, w.accounts, msg.caller, to, msg.value, if cfg.spuriousDragon then 1 else 0);
    EndowedTouches(w.touched, msg.caller, to);
  }

  lemma {:induction false} EndowedTouches(touched: set<Address>, from: Address, to: Address)
    ensures touched + {from} + {to} + {to} - {RIPEMD160} ==
            Touching(Touching(Touching(touched - {RIPEMD160}, to), from), to)
  {}

  lemma {:induction false} NewAsTold(cfg: Config, w: World, msg: Message)
    requires GoodConfig(cfg) && msg.depth <= cfg.stackLimit && msg.to.Some? && msg.code.Some?
    ensures var o, s := CreateAt(cfg, w, msg), NewStory(cfg, w, msg);
            && Answers(o, s)
            && (!RollsBack(cfg, o.result.error) ==>
                  Leaves(cfg, o, MessageLedger(Endowed(cfg, w, msg).0, msg), s.deeds))
    decreases cfg.stackLimit - msg.depth, 5, 1
  {
    hide PrecompilesOk, Keeps, Apply, RunInterpreter, FirstStory, Deposited, DepositStory, Installed;
    var (w1, error) := Endowed(cfg, w, msg);
    if msg.code.value != [] && error.None? {
      FirstAsTold(cfg, w1, msg, true);
      DepositAsTold(cfg, msg.gasLimit, msg.to.value, MessageLedger(w1, msg), RunInterpreter(cfg, w1, msg, true),
                    FirstStory(cfg, w1, msg, true));
    }
  }

  /** The deposit, and the code that it installs. */
  lemma {:induction false} DepositAsTold(cfg: Config, gasLimit: nat, to: Address, l: Ledger, o: Outcome, s: Story)
    requires o.result.gasUsed <= gasLimit && o.result.error != Some(CodestoreOutOfGas) && Answers(o, s)
    requires o.result.error.None? ==> OutcomeLedger(o) == Replay(cfg, l, s.deeds)
    ensures var r, s' := Deposited(cfg, gasLimit, o.result), DepositStory(cfg, gasLimit, to, s);
            && s'.fate == Ended(r.error) && r.gasUsed == s'.gas && r.returnValue == s'.output
            && (!RollsBack(cfg, r.error) ==>
                  OutcomeLedger(o.(world := Installed(cfg, o.world, to, r), result := r)) == Replay(cfg, l, s'.deeds))
  {
    hide Keeps, Apply;
    var r := Deposited(cfg, gasLimit, o.result);
    if r.error.None? && r.returnValue != [] {
      ReplayBoth(cfg, l, s.deeds, [Deployed(to, s.output)]);
      ReplayOne(cfg, Replay(cfg, l, s.deeds), Deployed(to, s.output));
      DeployAsTold(cfg, o, to, r.returnValue);
    } else if r.error == Some(CodestoreOutOfGas) {
      ReplayBoth(cfg, l, s.deeds, [LeftEmpty(to)]);
      ReplayOne(cfg, Replay(cfg, l, s.deeds), LeftEmpty(to));
      LeaveEmptyAsTold(cfg, o, to);
    }
  }

  lemma {:induction false} DeployAsTold(cfg: Config, o: Outcome, to: Address, code: Bytes)
    ensures OutcomeLedger(o.(world := PutCode(cfg, o.world, to, code))) ==
            Apply(cfg, OutcomeLedger(o), Deployed(to, code))
  {
    hide Keeps;
  }

  lemma {:induction false} LeaveEmptyAsTold(cfg: Config, o: Outcome, to: Address)
    ensures OutcomeLedger(o.(world := PutAccount(o.world, to, AccountOr(cfg, o.world, to)))) ==
            Apply(cfg, OutcomeLedger(o), LeftEmpty(to))
  {
    hide Keeps;
    TouchedInLedger(o.world.touched, to);
  }

  lemma {:induction false} CreateAsTold(cfg: Config, w: World, msg: Message)
    requires MessageOk(cfg, w, msg) && msg.to.None?
    ensures var o, s := ExecuteCreate(cfg, w, msg), CreateStory(cfg, w, msg);
            && Answers(o, s)
            && (!RollsBack(cfg, o.result.error) ==> Leaves(cfg, o, MessageLedger(w, msg), s.deeds))
    decreases cfg.stackLimit - msg.depth, 6, 0
  {
    hide PrecompilesOk, Keeps, Apply, CreateAt, NewStory, Endowed, Debited;
    var w1 := Debited(cfg, w, msg).0;
    var msg1 := msg.(code := Some(msg.data), data := []);
    var to := AddressFor(cfg, w1, msg1);
    var msg2 := msg1.(to := Some(to), created := if cfg.eip6780 then msg.created + {to} else msg.created);
    if !(cfg.eip3860 && |msg.data| > cfg.maxInitCodeSize && !cfg.allowUnlimitedInitCodeSize)
       && !Collides(cfg, AccountOr(cfg, w1, to)) {
      NewAsTold(cfg, w1, msg2);
      if !RollsBack(cfg, CreateAt(cfg, w1, msg2).result.error) {
        NewIsEndowed(cfg, w1, msg2);
        EndowedAlike(cfg, w1, msg.(to := Some(to)), msg2);
        EndowmentAsTold(cfg, w, msg, to);
        var l, began, paid := MessageLedger(w, msg), Began(to), Paid(msg.caller, to, msg.value);
        ReplayOne(cfg, l, began);
        ReplayBoth(cfg, l, [began], [paid]);
        ReplayOne(cfg, Apply(cfg, l, began), paid);
        assert [began] + [paid] == [began, paid];
        ReplayBoth(cfg, l, [began, paid], NewStory(cfg, w1, msg2).deeds);
      }
    }
  }

  /** A create that is kept has been endowed. */
  lemma {:induction false} NewIsEndowed(cfg: Config, w: World, msg: Message)
    requires GoodConfig(cfg) && msg.depth <= cfg.stackLimit && msg.to.Some? && msg.code.Some?
    requires !RollsBack(cfg, CreateAt(cfg, w, msg).result.error)
    ensures Endowed(cfg, w, msg).1.None?
  {
    hide PrecompilesOk, Keeps, RunInterpreter, Deposited, Installed;
  }

  lemma {:induction false} EndowedAlike(cfg: Config, w: World, msg: Message, msg': Message)
    requires msg.to == msg'.to && msg.to.Some? && msg.value == msg'.value
    ensures Endowed(cfg, w, msg) == Endowed(cfg, w, msg')
  {
    hide Keeps;
  }

  /** Every message: its error, gas and data are those told; if it is kept, state and results are those of the
      replay, and if not, the state is that of the replay, and nothing has been gathered. */
  lemma {:induction false} MessageAsTold(cfg: Config, w: World, msg: Message)
    requires MessageOk(cfg, w, msg)
    ensures var o, s := RunCall(cfg, w, msg), MessageStory(cfg, w, msg);
            && Answers(o, s)
            && if !StrikesOut(cfg, s.fate) then Leaves(cfg, o, MessageLedger(w, msg), s.deeds)
               else Leaves(cfg, o, LedgerOf(w, [], {}, {}, 0), s.deeds)
    decreases cfg.stackLimit - msg.depth, 7, 0
  {
    hide PrecompilesOk, Keeps, Apply, ExecuteCall, ExecuteCreate, CallStory, CreateStory, CountTransaction, WarmCreated,
      Before;
    var (w1, msg1) := WarmCreated(cfg, CountTransaction(cfg, w, msg), msg);
    var l := MessageLedger(w, msg);
    BeforeAsTold(cfg, w, msg, [], msg.selfdestruct, msg.created, msg.gasRefund);
    BeforeAsTold(cfg, w, msg, [], {}, {}, 0);
    if msg1.to.Some? {
      CallAsTold(cfg, w1, msg1);
      ReplayBoth(cfg, l, Before(cfg, w, msg), CallStory(cfg, w1, msg1).deeds);
    } else {
      CreateAsTold(cfg, w1, msg1);
      DepositFailsOnFrontier(cfg, w1, msg1);
      ReplayBoth(cfg, l, Before(cfg, w, msg), CreateStory(cfg, w1, msg1).deeds);
    }
    SettledAsTold(cfg, w1, msg1,
                  if msg1.to.Some? then ExecuteCall(cfg, w1, msg1) else ExecuteCreate(cfg, w1, msg1));
    assert Before(cfg, w, msg) + [] == Before(cfg, w, msg);
  }

  lemma {:induction false} SettledAsTold(cfg: Config, saved: World, msg: Message, o: Outcome)
    requires o.result.error == Some(CodestoreOutOfGas) ==> !cfg.homestead
    ensures var r := Settled(cfg, saved, msg, o);
            if !StrikesOut(cfg, Ended(o.result.error)) then r == o
            else OutcomeLedger(r) == LedgerOf(if o.cleared then saved.(transient := map[]) else saved, [], {}, {}, 0)
                 && r.cleared == o.cleared
                 && r.result.returnValue == o.result.returnValue
  {
    hide Keeps;
    StickyIsAll(saved.touched, o.world.touched);
  }

  // ---------------------------------------------------------------------------------------
  // Calls and creates of a frame
  // ---------------------------------------------------------------------------------------

  /** The story of an operation that may have sent a message. */
  ghost function Told(cfg: Config, sent: Option<Story>): Story {
    if sent.None? then Story([], 0, [], Running) else Story(sent.value.deeds, sent.value.gas, [], Running)
  }

  /** Taking a message over into the frame, or dropping it. */
  lemma {:induction false} ResumedAsTold(cfg: Config, f: Frame, w: World, msg: Message, o: Outcome, s: Story,
                                         returning: bool, returned: Returned)
    requires o.result.gasUsed <= f.run.gasLeft && Answers(o, s) && !o.cleared
    requires f.result.returnValue.None?
    requires var kept := !StrikesOut(cfg, s.fate);
             && (kept ==> GetAccount(o.world, f.env.address).Some?)
             && if kept then Leaves(cfg, o, MessageLedger(w, Sent(cfg, f, msg)), s.deeds)
                else Leaves(cfg, o, LedgerOf(w, [], {}, {}, 0), s.deeds)
    requires StrikesOut(cfg, s.fate) ==> (s.deeds == [] || exists a :: s.deeds == [Warmed(a)])
    ensures var f' := Resumed(cfg, f, o, !StrikesOut(cfg, s.fate), returning, returned);
            && f'.result.returnValue.None? && f'.run.gasLeft == f.run.gasLeft - s.gas
            && FrameLedger(f', o.world) == Replay(cfg, FrameLedger(f, w), s.deeds)
  {
    var l := FrameLedger(f, w);
    if StrikesOut(cfg, s.fate) {
      var l0 := LedgerOf(w, [], {}, {}, 0);
      if s.deeds != [] {
        var a :| s.deeds == [Warmed(a)];
        ReplayOne(cfg, l, Warmed(a));
        ReplayOne(cfg, l0, Warmed(a));
      }
      assert f.result.logs + [] == f.result.logs;
    } else {
      hide Apply, StrikesOut, Answers;
      var l0 := MessageLedger(w, Sent(cfg, f, msg));
      assert f.result.logs + [] == f.result.logs;
      ReplayShifted(cfg, l, l0, f.result.logs, f.result.created, s.deeds);
      ReplayGathers(cfg, l0, s.deeds);
      hide Replay;
    }
  }

  lemma {:induction false} BaseCallAsTold(cfg: Config, f: Frame, w: World, msg: Message)
    requires FrameOk(cfg, f, w) && msg.depth == f.env.depth + 1 && msg.gasLimit <= f.run.gasLeft
    requires msg.to.Some? && (msg.delegatecall ==> msg.to.value == f.env.address) && f.result.returnValue.None?
    ensures var sent := f.env.depth < cfg.stackLimit && (msg.delegatecall || msg.value <= f.env.contract.balance);
            TurnAsTold(cfg, f, w, BaseCall(cfg, f, w, msg),
                       Told(cfg, if sent then Some(MessageStory(cfg, w, Sent(cfg, f, msg))) else None))
    decreases cfg.stackLimit - f.env.depth, 2, 0
  {
    hide PrecompilesOk, Keeps, Resumed, RunCall, MessageStory, Apply, Leaves;
    if f.env.depth < cfg.stackLimit && (msg.delegatecall || msg.value <= f.env.contract.balance) {
      var msg1 := Sent(cfg, f, msg);
      MessageAsTold(cfg, w, msg1);
      NestedBefore(cfg, w, msg1);
      NestedNeverClears(cfg, w, msg1);
      StillThere(cfg, w, msg1, f.env.address);
      var o, s := RunCall(cfg, w, msg1), MessageStory(cfg, w, msg1);
      var ok := o.result.error.None?;
      ResumedAsTold(cfg, f, w, msg, o, s, ok || o.result.error == Some(Reverted), if ok then One else Zero);
    }
  }

  /** What is left of a nested message that is struck out. */
  lemma {:induction false} NestedBefore(cfg: Config, w: World, msg: Message)
    requires MessageOk(cfg, w, msg) && msg.depth > 0
    ensures var s := MessageStory(cfg, w, msg);
            StrikesOut(cfg, s.fate) ==> s.deeds == [] || exists a :: s.deeds == [Warmed(a)]
  {
    hide PrecompilesOk, Keeps, CallStory, CreateStory;
    var s := MessageStory(cfg, w, msg);
    if StrikesOut(cfg, s.fate) {
      assert s.deeds == Before(cfg, w, msg);
      if msg.to.None? && cfg.eip2929 {
        assert s.deeds == [Warmed(AddressFor(cfg, w, msg.(code := Some(msg.data))))];
      }
    }
  }

  lemma {:induction false} NestedNeverClears(cfg: Config, w: World, msg: Message)
    requires MessageOk(cfg, w, msg) && msg.depth > 0
    ensures !RunCall(cfg, w, msg).cleared
  {
    hide PrecompilesOk, Keeps, ExecuteCall, ExecuteCreate;
    var (w1, msg1) := WarmCreated(cfg, w, msg);
    NeverCleared(cfg, w1, msg1);
  }

  lemma {:induction false} StillThere(cfg: Config, w: World, msg: Message, a: Address)
    requires MessageOk(cfg, w, msg) && GetAccount(w, a).Some?
    ensures GetAccount(RunCall(cfg, w, msg).world, a).Some?
  {
    hide PrecompilesOk, RunCall;
    assert Keeps(w, RunCall(cfg, w, msg).world);
  }

  lemma {:induction false} CreateRunAsTold(cfg: Config, f: Frame, w: World, gas: nat, value: nat, code: Bytes,
                                           salt: Option<Bytes>)
    requires FrameOk(cfg, f, w) && gas <= f.run.gasLeft && f.env.depth < cfg.stackLimit
             && value <= f.env.contract.balance && f.result.returnValue.None?
    ensures var msg := Message(f.env.address, None, None, gas, value, code, None, f.env.depth + 1, false, salt, false,
                               {}, {}, 0);
            && MessageOk(cfg, w, Sent(cfg, f, msg))
            && TurnAsTold(cfg, f, w, CreateRun(cfg, f, w, gas, value, code, salt),
                          Told(cfg, Some(MessageStory(cfg, w, Sent(cfg, f, msg)))))
    decreases cfg.stackLimit - f.env.depth, 1, 0
  {
    hide PrecompilesOk, Keeps, Resumed, RunCall, MessageStory, Apply, Leaves;
    var msg := Message(f.env.address, None, None, gas, value, code, None, f.env.depth + 1, false, salt, false, {}, {},
                       0);
    var msg1 := Sent(cfg, f, msg);
    MessageAsTold(cfg, w, msg1);
    NestedBefore(cfg, w, msg1);
    NestedNeverClears(cfg, w, msg1);
    NestedDeposit(cfg, w, msg1);
    StillThere(cfg, w, msg1, f.env.address);
    var o, s := RunCall(cfg, w, msg1), MessageStory(cfg, w, msg1);
    var merged := o.result.error.None? || o.result.error == Some(CodestoreOutOfGas);
    var returned := if merged && o.createdAddress.Some? then Created(o.createdAddress.value)
                    else if o.result.error.None? then One else Zero;
    ResumedAsTold(cfg, f, w, msg, o, s, o.result.error == Some(Reverted), returned);
  }

  lemma {:induction false} NestedDeposit(cfg: Config, w: World, msg: Message)
    requires MessageOk(cfg, w, msg) && msg.to.None? && msg.depth > 0
    ensures RunCall(cfg, w, msg).result.error == Some(CodestoreOutOfGas) ==> !cfg.homestead
  {
    hide PrecompilesOk, Keeps, ExecuteCreate;
    var (w1, msg1) := WarmCreated(cfg, w, msg);
    DepositFailsOnFrontier(cfg, w1, msg1);
  }

  lemma {:induction false} ContractAsTold(cfg: Config, f: Frame, w: World, gas: nat, value: nat, code: Bytes,
                                          salt: Option<Bytes>)
    requires FrameOk(cfg, f, w) && gas <= f.run.gasLeft && f.result.returnValue.None?
    ensures TurnAsTold(cfg, f, w, Create(cfg, f, w, gas, value, code, salt),
                       ContractStory(cfg, f, w, gas, value, code, salt))
    decreases cfg.stackLimit - f.env.depth, 2, 0
  {
    hide PrecompilesOk, Keeps, CreateRun, MessageStory, Sent;
    var env := f.env;
    if !(env.depth >= cfg.stackLimit || env.contract.balance < value || env.contract.nonce >= MAX_UINT64) {
      var contract := env.contract.(nonce := env.contract.nonce + 1);
      var w1 := PutAccount(w, env.address, contract);
      var f1 := f.(env := env.(contract := contract));
      var l, counted := FrameLedger(f, w), Counted(env.address);
      ReplayOne(cfg, l, counted);
      TouchedInLedger(w.touched, env.address);
      assert FrameLedger(f1, w1) == Apply(cfg, l, counted);
      if !(cfg.eip3860 && |code| > cfg.maxInitCodeSize && !cfg.allowUnlimitedInitCodeSize) {
        CreateRunAsTold(cfg, f1, w1, gas, value, code, salt);
        var msg := Message(env.address, None, None, gas, value, code, None, env.depth + 1, false, salt, false, {}, {},
                           0);
        SentAlike(cfg, f, f1, msg);
        assert MessageOk(cfg, w1, Sent(cfg, f1, msg));
        ReplayBoth(cfg, l, [counted], MessageStory(cfg, w1, Sent(cfg, f, msg)).deeds);
      }
    }
  }

  lemma {:induction false} SentAlike(cfg: Config, f: Frame, f': Frame, msg: Message)
    requires f.result == f'.result && f.run.gasRefund == f'.run.gasRefund
    ensures Sent(cfg, f, msg) == Sent(cfg, f', msg)
  {}

  lemma {:induction false} SendAsTold(cfg: Config, f: Frame, w: World, action: Action)
    requires FrameOk(cfg, f, w) && action.CallTo? && action.gas <= f.run.gasLeft && f.result.returnValue.None?
    ensures TurnAsTold(cfg, f, w, StartCall(cfg, f, w, action), SendStory(cfg, f, w, action))
    decreases cfg.stackLimit - f.env.depth, 2, 1
  {
    hide PrecompilesOk, Keeps, BaseCall, MessageStory, Sent;
    var stipend := if action.Transfers() then cfg.callStipendGas else 0;
    var f1 := f.(run := f.run.(gasLeft := f.run.gasLeft + stipend));
    var msg := CallMessage(f1, action.kind, action.gas + stipend, action.address, action.amount, action.data);
    BaseCallAsTold(cfg, f1, w, msg);
    SentAlike(cfg, f, f1, msg);
  }

  lemma {:induction false} DispatchedAsTold(cfg: Config, f: Frame, w: World, action: Action)
    requires FrameOk(cfg, f, w) && f.result.returnValue.None?
    ensures TurnAsTold(cfg, f, w, Dispatched(cfg, f, w, action), ActionStory(cfg, f, w, action))
    decreases cfg.stackLimit - f.env.depth, 2, 2
  {
    hide PrecompilesOk, Keeps, Create, SelfDestruct, Simple, SendStory, ContractStory, BaseCall, Apply;
    match action
    case CallTo(_, gas, _, _, _) =>
      if gas <= f.run.gasLeft {
        SendAsTold(cfg, f, w, action);
      }
    case CreateWith(gas, amount, data, salt) =>
      if gas <= f.run.gasLeft {
        ContractAsTold(cfg, f, w, gas, amount, data, salt);
      }
    case Destroy(to) => DestroyAsTold(cfg, f, w, to);
    case _ => SimpleAsTold(cfg, f, w, action);
  }

  /** Every frame, from any of its operations on. */
  lemma {:induction false} FrameAsTold(cfg: Config, f: Frame, w: World)
    requires FrameOk(cfg, f, w) && f.result.returnValue.None?
    ensures TurnAsTold(cfg, f, w, RunFrom(cfg, f, w), FrameStory(cfg, f, w))
    decreases cfg.stackLimit - f.env.depth, 4, f.run.gasLeft
  {
    hide PrecompilesOk, Keeps, Dispatched, ActionStory, Apply;
    var step := cfg.handler(f, w);
    var cost := Cost(cfg, step);
    if f.run.gasLeft >= cost {
      var f1 := f.(run := f.run.(gasLeft := f.run.gasLeft - cost, local := step.local));
      DispatchedAsTold(cfg, f1, w, step.action);
      assert FrameLedger(f1, w) == FrameLedger(f, w);
      var turn := RunStep(cfg, f, w);
      if turn.Goes? {
        FrameAsTold(cfg, turn.frame, turn.world);
        ReplayBoth(cfg, FrameLedger(f, w), ActionStory(cfg, f1, w, step.action).deeds,
                   FrameStory(cfg, turn.frame, turn.world).deeds);
      }
    }
  }
}
