/** What holds of every call tree: no ether appears, ether only disappears by self-destruction to
    oneself, a failed message leaves no trace, the cached account is never stale. */
module EvmLaws {
  import opened Wrappers
  import opened JournalLog
  import opened EvmTypes
  import opened EvmSpec

  // ---------------------------------------------------------------------------------------
  // The sum of all balances
  // ---------------------------------------------------------------------------------------

  type Accounts = map<Address, Option<Account>>

  function BalanceOf(account: Option<Account>): nat {
    if account.Some? then account.value.balance else 0
  }

  ghost function Sum(m: Accounts): nat
    decreases |m|
  {
    if m == map[] then 0
    else
      var a :| a in m;
      BalanceOf(m[a]) + Sum(m - {a})
  }

  lemma {:induction false} SumSplit(m: Accounts, a: Address)
    requires a in m
    ensures Sum(m) == BalanceOf(m[a]) + Sum(m - {a})
    decreases |m|
  {
    var b :| b in m && Sum(m) == BalanceOf(m[b]) + Sum(m - {b});
    if a != b {
      SumSplit(m - {b}, a);
      SumSplit(m - {a}, b);
      assert m - {a} - {b} == m - {b} - {a};
    }
  }

  lemma {:induction false} SumSet(m: Accounts, a: Address, account: Option<Account>)
    ensures Sum(m[a := account]) + (if a in m then BalanceOf(m[a]) else 0) == Sum(m) + BalanceOf(account)
  {
    SumSplit(m[a := account], a);
    if a in m {
      SumSplit(m, a);
      assert m[a := account] - {a} == m - {a};
    } else {
      assert m[a := account] - {a} == m;
    }
  }

  ghost function Total(w: World): nat {
    Sum(w.accounts)
  }

  /** Writing one account. */
  lemma {:induction false} SetTotal(w: World, a: Address, account: Account)
    ensures Total(SetAccount(w, a, account)) + BalanceOf(GetAccount(w, a)) == Total(w) + account.balance
    ensures Total(PutAccount(w, a, account)) == Total(SetAccount(w, a, account))
  {
    SumSet(w.accounts, a, Some(account));
  }

  // ---------------------------------------------------------------------------------------
  // Conservation
  // ---------------------------------------------------------------------------------------

  /** No code ever destroys itself in favour of itself. */
  ghost predicate Burnless(cfg: Config) {
    forall f, w :: !BurnsHere(f, cfg.handler(f, w).action)
  }

  predicate BurnsHere(f: Frame, action: Action) {
    action.Destroy? && action.address == f.env.address
  }

  /** A transfer that reports no error moves ether and makes none. */
  lemma {:induction false} TransferConserves(cfg: Config, w: World, msg: Message)
    requires MessageOk(cfg, w, msg) && msg.to.Some? && Transferred(cfg, w, msg).1.None?
    ensures Total(Transferred(cfg, w, msg).0) == Total(w)
  {
    if !msg.delegatecall {
      var account := AccountOr(cfg, w, msg.caller);
      SetTotal(w, msg.caller, account.(balance := account.balance - msg.value));
      var w1 := Debited(cfg, w, msg).0;
      var toAccount := AccountOr(cfg, w1, msg.to.value);
      SetTotal(w1, msg.to.value, toAccount.(balance := toAccount.balance + msg.value));
    }
  }

  lemma {:induction false} ExecuteCallConserves(cfg: Config, w: World, msg: Message)
    requires MessageOk(cfg, w, msg) && msg.to.Some?
    ensures var o := ExecuteCall(cfg, w, msg);
            (o.result.error.None? ==> Total(o.world) + o.burned == Total(w)) && (Burnless(cfg) ==> o.burned == 0)
    decreases cfg.stackLimit - msg.depth, 6, 0
  {
    hide PrecompilesOk, Keeps;
    var (w1, error) := Transferred(cfg, w, msg);
    if error.None? {
      TransferConserves(cfg, w, msg);
      ExecuteCodeConserves(cfg, w1, msg, msg.codeAddress.UnwrapOr(msg.to.value));
    }
  }

  lemma {:induction false} ExecuteCodeConserves(cfg: Config, w: World, msg: Message, codeAddress: Address)
    requires GoodConfig(cfg) && msg.depth <= cfg.stackLimit && msg.to.Some? && GetAccount(w, msg.to.value).Some?
    ensures var o := ExecuteCode(cfg, w, msg, codeAddress);
            Total(o.world) + o.burned == Total(w) && (Burnless(cfg) ==> o.burned == 0)
    decreases cfg.stackLimit - msg.depth, 5, 1
  {
    hide PrecompilesOk, Keeps;
    var code := msg.code.UnwrapOr(GetCode(w, codeAddress));
    if !(msg.code.None? && cfg.isPrecompile(codeAddress)) && code != [] {
      RunInterpreterConserves(cfg, w, msg.(code := Some(code)), false);
    }
  }

  lemma {:induction false} RunInterpreterConserves(cfg: Config, w: World, msg: Message, isCreate: bool)
    requires GoodConfig(cfg) && msg.depth <= cfg.stackLimit
    requires msg.to.Some? && msg.code.Some? && GetAccount(w, msg.to.value).Some?
    ensures var o := RunInterpreter(cfg, w, msg, isCreate);
            Total(o.world) + o.burned == Total(w) && (Burnless(cfg) ==> o.burned == 0)
    decreases cfg.stackLimit - msg.depth, 5, 0
  {
    RunFromConserves(cfg, FirstFrame(cfg, w, msg, isCreate), w);
  }

  /** The debit and the endowment of a create. */
  lemma {:induction false} EndowmentConserves(cfg: Config, w: World, msg: Message)
    requires msg.to.Some? && Endowed(cfg, w, msg).1.None?
    ensures Total(Endowed(cfg, w, msg).0) == Total(w) + msg.value
  {
    var to := msg.to.value;
    var account := AccountOr(cfg, w, to);
    SetTotal(w, to, account);
    var counted := if cfg.spuriousDragon then account.(nonce := account.nonce + 1) else account;
    SetTotal(PutAccount(w, to, account), to, counted.(balance := counted.balance + msg.value));
  }

  lemma {:induction false} DebitTotal(cfg: Config, w: World, msg: Message)
    requires msg.value <= AccountOr(cfg, w, msg.caller).balance
    ensures Total(Debited(cfg, w, msg).0) + msg.value == Total(w)
  {
    var account := AccountOr(cfg, w, msg.caller);
    SetTotal(w, msg.caller, account.(balance := account.balance - msg.value));
  }

  lemma {:induction false} InstalledConserves(cfg: Config, w: World, to: Address, r: ExecResult)
    ensures Total(Installed(cfg, w, to, r)) == Total(w)
  {
    var account := AccountOr(cfg, w, to);
    SetTotal(w, to, account.(codeHash := cfg.keccak(r.returnValue)));
    SetTotal(w, to, account);
  }

  lemma {:induction false} CreateAtConserves(cfg: Config, w: World, msg: Message)
    requires GoodConfig(cfg) && msg.depth <= cfg.stackLimit && msg.to.Some? && msg.code.Some?
    ensures var o := CreateAt(cfg, w, msg);
            && (!RollsBack(cfg, o.result.error) ==> Total(o.world) + o.burned == Total(w) + msg.value)
            && (Burnless(cfg) ==> o.burned == 0)
    decreases cfg.stackLimit - msg.depth, 5, 1
  {
    hide PrecompilesOk, Keeps, Endowed;
    var (w1, error) := Endowed(cfg, w, msg);
    if error.None? {
      EndowmentConserves(cfg, w, msg);
      if msg.code.value != [] {
        RunInterpreterConserves(cfg, w1, msg, true);
        var o := RunInterpreter(cfg, w1, msg, true);
        InstalledConserves(cfg, o.world, msg.to.value, Deposited(cfg, msg.gasLimit, o.result));
      }
    }
  }

  lemma {:induction false} ExecuteCreateConserves(cfg: Config, w: World, msg: Message)
    requires MessageOk(cfg, w, msg) && msg.to.None?
    ensures var o := ExecuteCreate(cfg, w, msg);
            && (!RollsBack(cfg, o.result.error) ==> Total(o.world) + o.burned == Total(w))
            && (Burnless(cfg) ==> o.burned == 0)
    decreases cfg.stackLimit - msg.depth, 6, 0
  {
    hide PrecompilesOk, Keeps;
    DebitTotal(cfg, w, msg);
    var w1 := Debited(cfg, w, msg).0;
    var msg1 := msg.(code := Some(msg.data), data := []);
    var to := AddressFor(cfg, w1, msg1);
    CreateAtConserves(cfg, w1,
                      msg1.(to := Some(to), created := if cfg.eip6780 then msg.created + {to} else msg.created));
  }

  lemma {:induction false} CountConserves(cfg: Config, w: World, msg: Message)
    ensures Total(CountTransaction(cfg, w, msg)) == Total(w)
  {
    var account := AccountOr(cfg, w, msg.caller);
    SetTotal(w, msg.caller, account.(nonce := account.nonce + 1));
  }

  /** Ether conservation: over a whole call tree, whatever runs in it and however it ends, the sum of
      all balances loses exactly what was burned by surviving self-destructions to oneself, and nothing if the
      message fails or no code destroys itself like that. */
  lemma {:induction false} RunCallConserves(cfg: Config, w: World, msg: Message)
    requires MessageOk(cfg, w, msg)
    ensures var o := RunCall(cfg, w, msg);
            && Total(o.world) + o.burned == Total(w)
            && (RollsBack(cfg, o.result.error) || Burnless(cfg) ==> o.burned == 0)
    decreases cfg.stackLimit - msg.depth, 7, 0
  {
    hide PrecompilesOk, Keeps, CountTransaction, WarmCreated, Settled;
    var w0 := CountTransaction(cfg, w, msg);
    CountConserves(cfg, w, msg);
    var (w1, msg1) := WarmCreated(cfg, w0, msg);
    if msg1.to.Some? {
      ExecuteCallConserves(cfg, w1, msg1);
    } else {
      ExecuteCreateConserves(cfg, w1, msg1);
    }
  }

  lemma {:induction false} RunFromConserves(cfg: Config, f: Frame, w: World)
    requires FrameOk(cfg, f, w)
    ensures var end := RunFrom(cfg, f, w);
            Total(end.world) + end.burned == Total(w) && (Burnless(cfg) ==> end.burned == 0)
    decreases cfg.stackLimit - f.env.depth, 4, f.run.gasLeft
  {
    hide PrecompilesOk, Keeps;
    RunStepConserves(cfg, f, w);
    var turn := RunStep(cfg, f, w);
    if turn.Goes? {
      RunFromConserves(cfg, turn.frame, turn.world);
    }
  }

  lemma {:induction false} RunStepConserves(cfg: Config, f: Frame, w: World)
    requires FrameOk(cfg, f, w)
    ensures var turn := RunStep(cfg, f, w);
            Total(turn.world) + turn.burned == Total(w) && (Burnless(cfg) ==> turn.burned == 0)
    decreases cfg.stackLimit - f.env.depth, 3, 0
  {
    hide PrecompilesOk, Keeps;
    var step := cfg.handler(f, w);
    assert Burnless(cfg) ==> !BurnsHere(f, step.action);
    var cost := Cost(cfg, step);
    if f.run.gasLeft >= cost {
      var f1 := f.(run := f.run.(gasLeft := f.run.gasLeft - cost, local := step.local));
      DispatchedConserves(cfg, f1, w, step.action);
    }
  }

  lemma {:induction false} DispatchedConserves(cfg: Config, f: Frame, w: World, action: Action)
    requires FrameOk(cfg, f, w)
    ensures var turn := Dispatched(cfg, f, w, action);
            Total(turn.world) + turn.burned == Total(w) && (Burnless(cfg) && !BurnsHere(f, action) ==> turn.burned == 0)
    decreases cfg.stackLimit - f.env.depth, 2, 2
  {
    hide PrecompilesOk, Keeps, StartCall, Create, SelfDestruct, Simple;
    match action
    case CallTo(_, _, _, _, _) => StartCallConserves(cfg, f, w, action);
    case CreateWith(gas, amount, data, salt) =>
      if gas <= f.run.gasLeft {
        CreateConserves(cfg, f, w, gas, amount, data, salt);
      }
    case Destroy(to) => SelfDestructConserves(cfg, f, w, to);
    case _ =>
  }

  lemma {:induction false} StartCallConserves(cfg: Config, f: Frame, w: World, action: Action)
    requires FrameOk(cfg, f, w) && action.CallTo?
    ensures var turn := StartCall(cfg, f, w, action);
            Total(turn.world) + turn.burned == Total(w) && (Burnless(cfg) ==> turn.burned == 0)
    decreases cfg.stackLimit - f.env.depth, 2, 1
  {
    hide PrecompilesOk, Keeps, CallMessage;
    if action.gas <= f.run.gasLeft {
      var stipend := if action.Transfers() then cfg.callStipendGas else 0;
      var f1 := f.(run := f.run.(gasLeft := f.run.gasLeft + stipend));
      BaseCallConserves(cfg, f1, w,
                        CallMessage(f1, action.kind, action.gas + stipend, action.address, action.amount, action.data));
    }
  }

  lemma {:induction false} BaseCallConserves(cfg: Config, f: Frame, w: World, msg: Message)
    requires FrameOk(cfg, f, w) && msg.depth == f.env.depth + 1 && msg.gasLimit <= f.run.gasLeft
    requires msg.to.Some? && (msg.delegatecall ==> msg.to.value == f.env.address)
    ensures var turn := BaseCall(cfg, f, w, msg);
            Total(turn.world) + turn.burned == Total(w) && (Burnless(cfg) ==> turn.burned == 0)
    decreases cfg.stackLimit - f.env.depth, 2, 0
  {
    hide PrecompilesOk, Keeps, Resumed;
    if !(f.env.depth >= cfg.stackLimit || (!msg.delegatecall && f.env.contract.balance < msg.value)) {
      RunCallConserves(cfg, w, Sent(cfg, f, msg));
    }
  }

  lemma {:induction false} CreateConserves(cfg: Config, f: Frame, w: World, gas: nat, value: nat, code: Bytes,
                                           salt: Option<Bytes>)
    requires FrameOk(cfg, f, w) && gas <= f.run.gasLeft
    ensures var turn := Create(cfg, f, w, gas, value, code, salt);
            Total(turn.world) + turn.burned == Total(w) && (Burnless(cfg) ==> turn.burned == 0)
    decreases cfg.stackLimit - f.env.depth, 2, 0
  {
    hide PrecompilesOk, Keeps, Resumed;
    var env := f.env;
    if !(env.depth >= cfg.stackLimit || env.contract.balance < value || env.contract.nonce >= MAX_UINT64) {
      var contract := env.contract.(nonce := env.contract.nonce + 1);
      SetTotal(w, env.address, contract);
      var w1 := PutAccount(w, env.address, contract);
      var f1 := f.(env := env.(contract := contract));
      if !(cfg.eip3860 && |code| > cfg.maxInitCodeSize && !cfg.allowUnlimitedInitCodeSize) {
        CreateRunConserves(cfg, f1, w1, gas, value, code, salt);
      }
    }
  }

  lemma {:induction false} CreateRunConserves(cfg: Config, f: Frame, w: World, gas: nat, value: nat, code: Bytes,
                                              salt: Option<Bytes>)
    requires FrameOk(cfg, f, w) && gas <= f.run.gasLeft && f.env.depth < cfg.stackLimit
             && value <= f.env.contract.balance
    ensures var turn := CreateRun(cfg, f, w, gas, value, code, salt);
            Total(turn.world) + turn.burned == Total(w) && (Burnless(cfg) ==> turn.burned == 0)
    decreases cfg.stackLimit - f.env.depth, 1, 0
  {
    hide PrecompilesOk, Keeps, Resumed;
    var msg := Message(f.env.address, None, None, gas, value, code, None, f.env.depth + 1, false, salt, false, {}, {},
                       0);
    RunCallConserves(cfg, w, Sent(cfg, f, msg));
  }

  /** The balance of a destroyed contract moves, stays, or is burned; none of it is made twice, because
      the cached balance is the one in the state. */
  lemma {:induction false} SelfDestructConserves(cfg: Config, f: Frame, w: World, to: Address)
    requires FrameOk(cfg, f, w)
    ensures var turn := SelfDestruct(cfg, f, w, to);
            && Total(turn.world) + turn.burned == Total(w)
            && (turn.burned > 0 ==> to == f.env.address)
  {
    var self, balance := f.env.address, f.env.contract.balance;
    var toAccount := AccountOr(cfg, w, to);
    SetTotal(w, to, toAccount.(balance := toAccount.balance + balance));
    var w1 := if to == self then w else PutAccount(w, to, toAccount.(balance := toAccount.balance + balance));
    SetTotal(w1, self, AccountOr(cfg, w1, self).(balance := 0));
  }

  // ---------------------------------------------------------------------------------------
  // Failure
  // ---------------------------------------------------------------------------------------

  /** Nothing but the sticky touched address tells the two states apart. */
  ghost predicate NoTrace(w: World, w': World) {
    w' == w.(touched := w'.touched) && w'.touched - {RIPEMD160} == w.touched - {RIPEMD160} && w.touched <= w'.touched
  }

  /** A failed message leaves the state at its checkpoint: as before, with the created address warm and,
      at the top, the transaction counted. It reports no logs, no destroyed or created contracts and no refund. */
  lemma {:induction false} FailureLeavesNoTrace(cfg: Config, w: World, msg: Message)
    requires MessageOk(cfg, w, msg) && (msg.depth == 0 ==> w.transient == map[])
    requires RollsBack(cfg, RunCall(cfg, w, msg).result.error)
    ensures var o := RunCall(cfg, w, msg);
            && NoTrace(WarmCreated(cfg, CountTransaction(cfg, w, msg), msg).0, o.world)
            && o.result.logs == [] && o.result.selfdestruct == {} && o.result.created == {} && o.result.gasRefund == 0
  {
    hide PrecompilesOk, Keeps;
    var (w1, msg1) := WarmCreated(cfg, CountTransaction(cfg, w, msg), msg);
    StickyIsAll(w1.touched,
                (if msg1.to.Some? then ExecuteCall(cfg, w1, msg1) else ExecuteCreate(cfg, w1, msg1)).world.touched);
    if msg.depth > 0 {
      NeverCleared(cfg, w1, msg1);
    }
    if msg1.to.None? {
      DepositFailsOnFrontier(cfg, w1, msg1);
    }
  }

  /** Only Frontier dismisses a code deposit that cannot be paid, and only there does one fail in this way. */
  lemma {:induction false} DepositFailsOnFrontier(cfg: Config, w: World, msg: Message)
    requires MessageOk(cfg, w, msg) && msg.to.None?
    ensures ExecuteCreate(cfg, w, msg).result.error == Some(CodestoreOutOfGas) ==> !cfg.homestead
  {
    hide PrecompilesOk, Keeps, CreateAt;
    var w1 := Debited(cfg, w, msg).0;
    var msg1 := msg.(code := Some(msg.data), data := []);
    var to := AddressFor(cfg, w1, msg1);
    DepositAtFailsOnFrontier(cfg, w1,
                             msg1.(to := Some(to), created := if cfg.eip6780 then msg.created + {to} else msg.created));
  }

  lemma {:induction false} DepositAtFailsOnFrontier(cfg: Config, w: World, msg: Message)
    requires GoodConfig(cfg) && msg.depth <= cfg.stackLimit && msg.to.Some? && msg.code.Some?
    ensures CreateAt(cfg, w, msg).result.error == Some(CodestoreOutOfGas) ==> !cfg.homestead
  {
    hide PrecompilesOk, Keeps;
  }

  lemma {:induction false} StickyIsAll(a: set<Address>, b: set<Address>)
    ensures a + (b * {RIPEMD160}) - {RIPEMD160} == a - {RIPEMD160}
  {}

  /** A call that fails leaves the calling frame as it was, but for the gas, the return data and the
      value pushed; the state is the one before the call. */
  lemma {:induction false} FailedCallKeepsFrame(cfg: Config, f: Frame, w: World, msg: Message)
    requires FrameOk(cfg, f, w) && msg.depth == f.env.depth + 1 && msg.gasLimit <= f.run.gasLeft
    requires msg.to.Some? && (msg.delegatecall ==> msg.to.value == f.env.address)
    requires BaseCall(cfg, f, w, msg).frame.run.returned == Zero
    ensures var turn := BaseCall(cfg, f, w, msg);
            && turn.frame == f.(run :=
                                f.run.(gasLeft := turn.frame.run.gasLeft, returnBytes := turn.frame.run.returnBytes,
                                              returned := Zero))
            && NoTrace(w, turn.world) && turn.burned == 0
  {
    hide PrecompilesOk, Keeps;
    if !(f.env.depth >= cfg.stackLimit || (!msg.delegatecall && f.env.contract.balance < msg.value)) {
      var msg1 := Sent(cfg, f, msg);
      FailureLeavesNoTrace(cfg, w, msg1);
      RunCallConserves(cfg, w, msg1);
      assert f.result.logs + [] == f.result.logs;
    }
  }

  /** A create that fails counts the nonce, unless it was never tried, and changes nothing else but warmth. */
  lemma {:induction false} FailedCreateKeepsFrame(cfg: Config, f: Frame, w: World, gas: nat, value: nat, code: Bytes,
                                                  salt: Option<Bytes>)
    requires FrameOk(cfg, f, w) && gas <= f.run.gasLeft
    requires Create(cfg, f, w, gas, value, code, salt).frame.run.returned == Zero
    ensures var turn := Create(cfg, f, w, gas, value, code, salt);
            var tried := f.env.depth < cfg.stackLimit && value <= f.env.contract.balance
              && f.env.contract.nonce < MAX_UINT64;
            var contract := if tried then f.env.contract.(nonce := f.env.contract.nonce + 1) else f.env.contract;
            var w1 := if tried then PutAccount(w, f.env.address, contract) else w;
            && turn.frame == f.(env := f.env.(contract := contract),
                                run := f.run.(gasLeft := turn.frame.run.gasLeft,
                                              returnBytes := turn.frame.run.returnBytes, returned := Zero))
            && turn.world == w1.(warm := turn.world.warm, touched := turn.world.touched) && turn.burned == 0
  {
    hide PrecompilesOk, Keeps;
    if f.env.depth < cfg.stackLimit && value <= f.env.contract.balance && f.env.contract.nonce < MAX_UINT64 {
      var contract := f.env.contract.(nonce := f.env.contract.nonce + 1);
      var w1 := PutAccount(w, f.env.address, contract);
      var f1 := f.(env := f.env.(contract := contract));
      if !(cfg.eip3860 && |code| > cfg.maxInitCodeSize && !cfg.allowUnlimitedInitCodeSize) {
        FailedRun(cfg, f1, w1, gas, value, code, salt);
      }
    }
  }

  lemma {:induction false} FailedRun(cfg: Config, f: Frame, w: World, gas: nat, value: nat, code: Bytes,
                                     salt: Option<Bytes>)
    requires FrameOk(cfg, f, w) && gas <= f.run.gasLeft && f.env.depth < cfg.stackLimit
             && value <= f.env.contract.balance
    requires CreateRun(cfg, f, w, gas, value, code, salt).frame.run.returned == Zero
    ensures var turn := CreateRun(cfg, f, w, gas, value, code, salt);
            && turn.frame == f.(run :=
                                f.run.(gasLeft := turn.frame.run.gasLeft, returnBytes := turn.frame.run.returnBytes,
                                       returned := Zero))
            && turn.world == w.(warm := turn.world.warm, touched := turn.world.touched) && turn.burned == 0
  {
    hide PrecompilesOk, Keeps, RunCall, WarmCreated;
    var msg := Message(f.env.address, None, None, gas, value, code, None, f.env.depth + 1, false, salt, false, {}, {},
                       0);
    var msg1 := Sent(cfg, f, msg);
    CreateNamesAddress(cfg, w, msg1);
    FailureLeavesNoTrace(cfg, w, msg1);
    RunCallConserves(cfg, w, msg1);
    assert f.result.logs + [] == f.result.logs;
  }

  /** A create whose code deposit fails has an address all the same. */
  lemma {:induction false} CreateNamesAddress(cfg: Config, w: World, msg: Message)
    requires MessageOk(cfg, w, msg) && msg.to.None? && msg.depth > 0
    ensures var o := RunCall(cfg, w, msg);
            o.result.error == Some(CodestoreOutOfGas) ==> o.createdAddress.Some?
  {
    hide PrecompilesOk, Keeps;
    var (w1, msg1) := WarmCreated(cfg, w, msg);
    ExecuteCreateNamesAddress(cfg, w1, msg1);
  }

  lemma {:induction false} ExecuteCreateNamesAddress(cfg: Config, w: World, msg: Message)
    requires MessageOk(cfg, w, msg) && msg.to.None?
    ensures var o := ExecuteCreate(cfg, w, msg);
            o.createdAddress.None? ==> o.result.error == Some(InitcodeSizeViolation)
  {
    hide PrecompilesOk, Keeps;
  }

  // ---------------------------------------------------------------------------------------
  // What a message does
  // ---------------------------------------------------------------------------------------

  function Balance(w: World, a: Address): nat {
    BalanceOf(GetAccount(w, a))
  }

  /** A transfer that reports no error takes the value from the caller, gives it to the callee, and changes no
      other balance; sent to oneself it changes none. A delegated call transfers nothing. */
  lemma {:induction false} TransferMoves(cfg: Config, w: World, msg: Message, other: Address)
    requires MessageOk(cfg, w, msg) && msg.to.Some? && Transferred(cfg, w, msg).1.None?
    ensures var w', to := Transferred(cfg, w, msg).0, msg.to.value;
            var moved := if msg.delegatecall || msg.caller == to then 0 else msg.value;
            && Balance(w', msg.caller) + moved == Balance(w, msg.caller)
            && Balance(w', to) == Balance(w, to) + moved
            && (other != msg.caller && other != to ==> GetAccount(w', other) == GetAccount(w, other))
  {
    hide PrecompilesOk, Keeps;
  }

  /** Code that is deployed without an error is within the size limit, is not in the reserved format, and has
      been paid for byte by byte. */
  lemma {:induction false} DeployedCodeIsAllowed(cfg: Config, gasLimit: nat, r: ExecResult)
    requires r.gasUsed <= gasLimit && Deposited(cfg, gasLimit, r).error.None?
    ensures var r' := Deposited(cfg, gasLimit, r);
            && r'.returnValue == r.returnValue
            && (cfg.spuriousDragon && !cfg.allowUnlimitedContractSize ==> |r'.returnValue| <= cfg.maxCodeSize)
            && (cfg.eip3541 && r'.returnValue != [] ==> r'.returnValue[0] != FORMAT)
            && r'.gasUsed == r.gasUsed + |r'.returnValue| * cfg.createDataGas <= gasLimit
  {
    if cfg.homestead {
    }
  }

  // ---------------------------------------------------------------------------------------
  // Every step of a frame
  // ---------------------------------------------------------------------------------------

  /** Where a frame is after `n` operations, if it is still running. */
  ghost function After(cfg: Config, f: Frame, w: World, n: nat): (r: Option<(Frame, World)>)
    requires FrameOk(cfg, f, w)
    ensures r.Some? ==> FrameOk(cfg, r.value.0, r.value.1)
  {
    if n == 0 then Some((f, w))
    else
      var before := After(cfg, f, w, n - 1);
      if before.None? then None
      else
        var turn := RunStep(cfg, before.value.0, before.value.1);
        if turn.Goes? then Some((turn.frame, turn.world)) else None
  }

  /** At every step of every frame the cached account is the account in the state, the gas counter is
      between 0 and what the frame started with, and each operation has cost at least one gas. */
  lemma {:induction false} EveryStepIsCoherent(cfg: Config, f: Frame, w: World, n: nat)
    requires FrameOk(cfg, f, w) && After(cfg, f, w, n).Some?
    ensures var (f', w') := After(cfg, f, w, n).value;
            && GetAccount(w', f.env.address) == Some(f'.env.contract)
            && f'.env.address == f.env.address && f'.run.gasLeft + n <= f.run.gasLeft
  {
    hide PrecompilesOk, Keeps;
    if n > 0 {
      EveryStepIsCoherent(cfg, f, w, n - 1);
    }
  }
}
