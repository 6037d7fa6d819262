/** Calls and creates of `packages/evm/src/evm.ts` and `interpreter.ts` as functions of the state.
    A function is only defined where the source does not throw out of `runCall`; that the frames it
    starts never leave that domain is part of its contract. */
module EvmSpec {
  import opened Wrappers
  import opened JournalLog
  import opened EvmTypes

  /** What a message leaves: the state, its result, the ether burned by it, and whether transient
      storage has been cleared. */
  datatype Outcome = Outcome(world: World, result: ExecResult, createdAddress: Option<Address>, burned: nat,
                             cleared: bool)

  /** One operation of a frame: the frame goes on, or ends. */
  datatype Turn =
    | Goes(frame: Frame, world: World, burned: nat)
    | Ends(frame: Frame, world: World, burned: nat, error: Option<Err>)

  // ---------------------------------------------------------------------------------------
  // Contracts
  // ---------------------------------------------------------------------------------------

  /** The cached account of a running frame is the one in the state. */
  predicate Coherent(f: Frame, w: World) {
    GetAccount(w, f.env.address) == Some(f.env.contract)
  }

  ghost predicate FrameOk(cfg: Config, f: Frame, w: World) {
    GoodConfig(cfg) && f.env.depth <= cfg.stackLimit && Coherent(f, w)
  }

  /** A create is funded, and code is only delegated to for an account that exists. */
  ghost predicate MessageOk(cfg: Config, w: World, msg: Message) {
    && GoodConfig(cfg) && msg.depth <= cfg.stackLimit
    && (msg.to.None? ==> !msg.delegatecall && msg.value <= AccountOr(cfg, w, msg.caller).balance)
    && (msg.delegatecall ==> msg.to.Some? && GetAccount(w, msg.to.value).Some?)
  }

  /** Does this error take the changes of a message back? */
  predicate RollsBack(cfg: Config, error: Option<Err>) {
    error.Some? && !(!cfg.homestead && error == Some(CodestoreOutOfGas))
  }

  /** Within gas; no account lost; a message that executes a call never fails on code deposit. */
  ghost predicate Sound(w: World, gasLimit: nat, to: Option<Address>, world: World, r: ExecResult) {
    && r.gasUsed <= gasLimit && Keeps(w, world)
    && (to.Some? ==> r.error != Some(CodestoreOutOfGas))
  }

  /** A frame that goes on has less gas and a coherent cache; one that ends has no more gas. */
  ghost predicate TurnOk(cfg: Config, f: Frame, w: World, turn: Turn) {
    && Keeps(w, turn.world) && turn.frame.env.address == f.env.address && turn.frame.env.depth == f.env.depth
    && (turn.Goes? ==> turn.frame.run.gasLeft < f.run.gasLeft && FrameOk(cfg, turn.frame, turn.world))
    && (turn.Ends? ==> turn.frame.run.gasLeft <= f.run.gasLeft && turn.error != Some(CodestoreOutOfGas))
  }

  // ---------------------------------------------------------------------------------------
  // Messages
  // ---------------------------------------------------------------------------------------

  /** `runCall` (evm.ts:838-980). */
  ghost function RunCall(cfg: Config, w: World, msg: Message): (o: Outcome)
    requires MessageOk(cfg, w, msg)
    ensures Sound(w, msg.gasLimit, msg.to, o.world, o.result)
    ensures msg.depth > 0 && RollsBack(cfg, o.result.error) ==> o.world.accounts == w.accounts
    decreases cfg.stackLimit - msg.depth, 7, 0
  {
    var w0 := CountTransaction(cfg, w, msg);
    var (w1, msg1) := WarmCreated(cfg, w0, msg);
    if msg1.to.Some? then Settled(cfg, w1, msg1, ExecuteCall(cfg, w1, msg1))
    else Settled(cfg, w1, msg1, ExecuteCreate(cfg, w1, msg1))
  }

  /** The sender's nonce goes up for the message of a transaction. */
  ghost function CountTransaction(cfg: Config, w: World, msg: Message): (r: World)
    ensures Keeps(w, r) && (msg.depth > 0 ==> r == w)
    ensures MessageOk(cfg, w, msg) ==> MessageOk(cfg, r, msg)
  {
    if msg.depth > 0 then w
    else
      var account := AccountOr(cfg, w, msg.caller);
      PutAccount(w, msg.caller, account.(nonce := account.nonce + 1))
  }

  /** A created address is warm even when its creation fails. */
  ghost function WarmCreated(cfg: Config, w: World, msg: Message): (r: (World, Message))
    ensures r.0 == w.(warm := r.0.warm)
    ensures r.1 == msg.(code := r.1.code)
    ensures MessageOk(cfg, w, msg) ==> MessageOk(cfg, r.0, r.1)
  {
    if msg.to.None? && cfg.eip2929 then
      var msg' := msg.(code := Some(msg.data));
      (WarmedAddress(w, AddressFor(cfg, w, msg')), msg')
    else (w, msg)
  }

  /** `_generateAddress` (evm.ts:1069-1082). */
  ghost function AddressFor(cfg: Config, w: World, msg: Message): Address {
    if msg.salt.Some? then cfg.generateAddress2(msg.caller, msg.salt.value, msg.code.UnwrapOr([]))
    else cfg.generateAddress(msg.caller, AccountOr(cfg, w, msg.caller).nonce - 1)
  }

  /** What `runCall` does with a result (evm.ts:944-979). */
  ghost function Settled(cfg: Config, saved: World, msg: Message, o: Outcome): (r: Outcome)
    ensures r.result.gasUsed == o.result.gasUsed && r.result.error == o.result.error
    ensures r.world.accounts == if RollsBack(cfg, o.result.error) then saved.accounts else o.world.accounts
    ensures r.burned == if RollsBack(cfg, o.result.error) then 0 else o.burned
  {
    var err := o.result.error;
    var forfeited := if err.Some? && err != Some(CodestoreOutOfGas)
                     then o.result.(selfdestruct := {}, created := {}, gasRefund := 0) else o.result;
    if RollsBack(cfg, err) then
      o.(world := RolledBack(saved, o.world, o.cleared), result := forfeited.(logs := []), burned := 0)
    else o.(result := forfeited)
  }

  /** `_reduceSenderBalance` (evm.ts:1084-1094), with the error it throws. */
  ghost function Debited(cfg: Config, w: World, msg: Message): (World, Option<Err>) {
    var account := AccountOr(cfg, w, msg.caller);
    if account.balance < msg.value then (w, Some(InsufficientBalance))
    else (PutAccount(w, msg.caller, account.(balance := account.balance - msg.value)), None)
  }

  /** `_addToBalance` (evm.ts:1096-1108), with the error it throws. */
  ghost function Credited(w: World, to: Address, toAccount: Account, value: nat): (World, Option<Err>) {
    if toAccount.balance + value > MAX_INTEGER then (w, Some(ValueOverflow))
    else (PutAccount(w, to, toAccount.(balance := toAccount.balance + value)), None)
  }

  /** Debit, then credit even if the debit failed (evm.ts:304-348). */
  ghost function Transferred(cfg: Config, w: World, msg: Message): (r: (World, Option<Err>))
    requires MessageOk(cfg, w, msg) && msg.to.Some?
    ensures Keeps(w, r.0) && r.1 != Some(CodestoreOutOfGas)
    ensures r.1.None? ==> GetAccount(r.0, msg.to.value).Some?
  {
    if msg.delegatecall then (w, None)
    else
      var (w1, err1) := Debited(cfg, w, msg);
      var (w2, err2) := Credited(w1, msg.to.value, AccountOr(cfg, w1, msg.to.value), msg.value);
      (w2, if err2.Some? then err2 else err1)
  }

  /** A result that never reached the interpreter. */
  ghost function Early(msg: Message, gasUsed: nat, error: Option<Err>): ExecResult {
    ExecResult([], gasUsed, msg.gasRefund, error, [], msg.selfdestruct, msg.created)
  }

  /** `_executeCall` (evm.ts:262-415). */
  ghost function ExecuteCall(cfg: Config, w: World, msg: Message): (o: Outcome)
    requires MessageOk(cfg, w, msg) && msg.to.Some?
    ensures Sound(w, msg.gasLimit, msg.to, o.world, o.result)
    decreases cfg.stackLimit - msg.depth, 6, 0
  {
    var (w1, error) := Transferred(cfg, w, msg);
    var codeAddress := msg.codeAddress.UnwrapOr(msg.to.value);
    if error.Some? then Outcome(w1, Early(msg, 0, error), None, 0, false)
    else
      KeepsThrough(w, w1, ExecuteCode(cfg, w1, msg, codeAddress).world);
      ExecuteCode(cfg, w1, msg, codeAddress)
  }

  /** `runPrecompile` (evm.ts:1021-1040): it moves no ether and changes no state. */
  ghost function RunPrecompile(cfg: Config, w: World, msg: Message, codeAddress: Address): (o: Outcome)
    requires GoodConfig(cfg)
    ensures o.result.gasUsed <= msg.gasLimit && o.world.accounts == w.accounts && o.burned == 0
    ensures Keeps(w, o.world) && o.result.error != Some(CodestoreOutOfGas)
  {
    PrecompileFits(cfg, codeAddress, msg.data, msg.gasLimit);
    var p := cfg.precompile(codeAddress, msg.data, msg.gasLimit);
    Outcome(Cleaned(cfg, w, msg.depth), Early(msg, p.gasUsed, p.error).(returnValue := p.returnValue), None, 0,
            msg.depth == 0 && cfg.eip1153)
  }

  lemma {:induction false} PrecompileFits(cfg: Config, a: Address, data: Bytes, gas: nat)
    requires GoodConfig(cfg)
    ensures PrecompileOk(cfg.precompile(a, data, gas), gas)
  {}

  /** `_loadCode`, and running what it finds (evm.ts:350-414). */
  ghost function ExecuteCode(cfg: Config, w: World, msg: Message, codeAddress: Address): (o: Outcome)
    requires GoodConfig(cfg) && msg.depth <= cfg.stackLimit && msg.to.Some? && GetAccount(w, msg.to.value).Some?
    ensures Sound(w, msg.gasLimit, msg.to, o.world, o.result)
    decreases cfg.stackLimit - msg.depth, 5, 1
  {
    hide PrecompilesOk;
    var code := msg.code.UnwrapOr(GetCode(w, codeAddress));
    if msg.code.None? && cfg.isPrecompile(codeAddress) then
      RunPrecompile(cfg, w, msg, codeAddress)
    else if code == [] then Outcome(w, Early(msg, 0, None), None, 0, false)
    else
      var o := RunInterpreter(cfg, w, msg.(code := Some(code)), false);
      o.(world := Cleaned(cfg, o.world, msg.depth), cleared := msg.depth == 0 && cfg.eip1153)
  }

  /** `postMessageCleanup` (evm.ts:1113-1115). */
  ghost function Cleaned(cfg: Config, w: World, depth: nat): (r: World)
    ensures r.accounts == w.accounts
  {
    if depth == 0 && cfg.eip1153 then w.(transient := map[]) else w
  }

  ghost predicate Collides(cfg: Config, account: Account) {
    account.nonce > 0 || account.codeHash != cfg.keccak([]) || account.storageRoot != cfg.keccak([0x80])
  }

  /** The first half of `_executeCreate` (evm.ts:417-505). */
  ghost function ExecuteCreate(cfg: Config, w: World, msg: Message): (o: Outcome)
    requires MessageOk(cfg, w, msg) && msg.to.None?
    ensures Sound(w, msg.gasLimit, msg.to, o.world, o.result)
    decreases cfg.stackLimit - msg.depth, 6, 0
  {
    hide PrecompilesOk;
    var w1 := Debited(cfg, w, msg).0;
    if cfg.eip3860 && |msg.data| > cfg.maxInitCodeSize && !cfg.allowUnlimitedInitCodeSize then
      Outcome(w1, Early(msg, msg.gasLimit, Some(InitcodeSizeViolation)), None, 0, false)
    else
      var msg1 := msg.(code := Some(msg.data), data := []);
      var to := AddressFor(cfg, w1, msg1);
      var msg2 := msg1.(to := Some(to), created := if cfg.eip6780 then msg.created + {to} else msg.created);
      if Collides(cfg, AccountOr(cfg, w1, to)) then
        Outcome(w1, Early(msg2, msg.gasLimit, Some(CreateCollision)), Some(to), 0, false)
      else
        KeepsThrough(w, w1, CreateAt(cfg, w1, msg2).world);
        CreateAt(cfg, w1, msg2)
  }

  /** The second half of `_executeCreate` (evm.ts:507-744): the new account, its init code, its code. */
  ghost function CreateAt(cfg: Config, w: World, msg: Message): (o: Outcome)
    requires GoodConfig(cfg) && msg.depth <= cfg.stackLimit && msg.to.Some? && msg.code.Some?
    ensures o.result.gasUsed <= msg.gasLimit && Keeps(w, o.world)
    decreases cfg.stackLimit - msg.depth, 5, 1
  {
    hide PrecompilesOk;
    var to := msg.to.value;
    var (w1, error) := Endowed(cfg, w, msg);
    if msg.code.value == [] || error.Some? then
      Outcome(w1, Early(msg, 0, error), Some(to), 0, false)
    else
      var o := RunInterpreter(cfg, w1, msg, true);
      var r := Deposited(cfg, msg.gasLimit, o.result);
      var w2 := Installed(cfg, o.world, to, r);
      KeepsThrough(w1, o.world, w2);
      Outcome(Cleaned(cfg, w2, msg.depth), r, Some(to), o.burned, msg.depth == 0 && cfg.eip1153)
  }

  /** Putting the new account, counting its nonce, and paying it (evm.ts:507-532). */
  ghost function Endowed(cfg: Config, w: World, msg: Message): (r: (World, Option<Err>))
    requires msg.to.Some?
    ensures Keeps(w, r.0) && GetAccount(r.0, msg.to.value).Some?
    ensures r.1 != Some(CodestoreOutOfGas)
  {
    var account := AccountOr(cfg, w, msg.to.value);
    var w1 := PutAccount(w, msg.to.value, account);
    var counted := if cfg.spuriousDragon then account.(nonce := account.nonce + 1) else account;
    Credited(w1, msg.to.value, counted, msg.value)
  }

  ghost function Failed(r: ExecResult, gasUsed: nat, error: Err): ExecResult {
    r.(returnValue := [], gasUsed := gasUsed, error := Some(error))
  }

  /** The fee and the checks for the code that init code returns (evm.ts:592-668). */
  ghost function Deposited(cfg: Config, gasLimit: nat, r: ExecResult): (r': ExecResult)
    requires r.gasUsed <= gasLimit
    ensures r'.gasUsed <= gasLimit
    ensures r' == r.(returnValue := r'.returnValue, gasUsed := r'.gasUsed, error := r'.error)
    ensures r'.error.None? ==> r.error.None?
  {
    var returnFee := if r.error.None? then |r.returnValue| * cfg.createDataGas else 0;
    var totalGas := r.gasUsed + returnFee;
    var allowedCodeSize := r.error.Some? || !cfg.spuriousDragon || |r.returnValue| <= cfg.maxCodeSize;
    if totalGas <= gasLimit && (cfg.allowUnlimitedContractSize || allowedCodeSize) then
      if cfg.eip3541 && r.returnValue != [] && r.returnValue[0] == FORMAT then Failed(r, gasLimit, InvalidBytecode)
      else r.(gasUsed := totalGas)
    else if cfg.homestead then
      Failed(r, gasLimit, if !allowedCodeSize then CodesizeExceedsMaximum else OutOfGas)
    else Failed(r, r.gasUsed, CodestoreOutOfGas)
  }

  /** Saving the code, or an empty contract where the deposit could not be paid on Frontier (evm.ts:691-734). */
  ghost function Installed(cfg: Config, w: World, to: Address, r: ExecResult): (w': World)
    ensures Keeps(w, w')
  {
    if r.error.None? && r.returnValue != [] then PutCode(cfg, w, to, r.returnValue)
    else if r.error == Some(CodestoreOutOfGas) then PutAccount(w, to, AccountOr(cfg, w, to))
    else w
  }

  /** `runInterpreter` (evm.ts:749-831). */
  ghost function RunInterpreter(cfg: Config, w: World, msg: Message, isCreate: bool): (o: Outcome)
    requires GoodConfig(cfg) && msg.depth <= cfg.stackLimit
    requires msg.to.Some? && msg.code.Some? && GetAccount(w, msg.to.value).Some?
    ensures Sound(w, msg.gasLimit, msg.to, o.world, o.result)
    decreases cfg.stackLimit - msg.depth, 5, 0
  {
    var end := RunFrom(cfg, FirstFrame(cfg, w, msg, isCreate), w);
    Outcome(end.world, Concluded(msg.gasLimit, end), None, end.burned, false)
  }

  ghost function FirstFrame(cfg: Config, w: World, msg: Message, isCreate: bool): (f: Frame)
    requires msg.to.Some? && msg.code.Some?
  {
    var env := Env(msg.to.value, msg.caller, msg.value, msg.data, msg.code.value, msg.isStatic, isCreate, msg.depth,
                   AccountOr(cfg, w, msg.to.value));
    Frame(env, RunState(msg.gasLimit, msg.gasRefund, [], Zero, []), RunResult([], None, msg.selfdestruct, msg.created))
  }

  /** The result of a frame that has ended (evm.ts:796-831). */
  ghost function Concluded(gasLimit: nat, end: Turn): (r: ExecResult)
    requires end.Ends? && end.frame.run.gasLeft <= gasLimit
    ensures r.gasUsed <= gasLimit && r.error == end.error
  {
    var f := end.frame;
    var gasUsed := if end.error.Some? && end.error != Some(Reverted) then gasLimit else gasLimit - f.run.gasLeft;
    var returnValue := f.result.returnValue.UnwrapOr([]);
    if end.error.Some? then ExecResult(returnValue, gasUsed, f.run.gasRefund, end.error, [], {}, {})
    else ExecResult(returnValue, gasUsed, f.run.gasRefund, None, f.result.logs, f.result.selfdestruct, f.result.created)
  }

  /** Only the message of a transaction clears transient storage. */
  lemma {:induction false} NeverCleared(cfg: Config, w: World, msg: Message)
    requires MessageOk(cfg, w, msg) && msg.depth > 0
    ensures if msg.to.Some? then !ExecuteCall(cfg, w, msg).cleared else !ExecuteCreate(cfg, w, msg).cleared
  {}

  // ---------------------------------------------------------------------------------------
  // Frames
  // ---------------------------------------------------------------------------------------

  /** The loop of `run` (interpreter.ts:279-355). */
  ghost function RunFrom(cfg: Config, f: Frame, w: World): (end: Turn)
    requires FrameOk(cfg, f, w)
    ensures end.Ends? && TurnOk(cfg, f, w, end)
    decreases cfg.stackLimit - f.env.depth, 4, f.run.gasLeft
  {
    var turn := RunStep(cfg, f, w);
    if turn.Ends? then turn
    else
      var end := RunFrom(cfg, turn.frame, turn.world);
      Ends(end.frame, end.world, turn.burned + end.burned, end.error)
  }

  /** The gas an operation costs before its handler runs. */
  ghost function Cost(cfg: Config, step: Step): nat {
    step.fee + (if step.action.Halts() then 0 else 1)
    + (if step.action.Transfers() then cfg.callValueTransferGas else 0)
  }

  /** `runStep` (interpreter.ts:362-429). */
  ghost function RunStep(cfg: Config, f: Frame, w: World): (turn: Turn)
    requires FrameOk(cfg, f, w)
    ensures TurnOk(cfg, f, w, turn)
    decreases cfg.stackLimit - f.env.depth, 3, 0
  {
    hide PrecompilesOk;
    var step := cfg.handler(f, w);
    var cost := Cost(cfg, step);
    if f.run.gasLeft < cost then Ends(f.(run := f.run.(gasLeft := 0, local := step.local)), w, 0, Some(OutOfGas))
    else
      var f1 := f.(run := f.run.(gasLeft := f.run.gasLeft - cost, local := step.local));
      Dispatched(cfg, f1, w, step.action)
  }

  /** The handler of an operation that has been paid for. */
  ghost function Dispatched(cfg: Config, f: Frame, w: World, action: Action): (turn: Turn)
    requires FrameOk(cfg, f, w)
    ensures TurnOk(cfg, WithSpare(cfg, f, action), w, turn)
    decreases cfg.stackLimit - f.env.depth, 2, 2
  {
    hide PrecompilesOk;
    match action
    case CallTo(_, _, _, _, _) => StartCall(cfg, f, w, action)
    case CreateWith(gas, amount, data, salt) =>
      if gas > f.run.gasLeft then Ends(f, w, 0, Some(OutOfGas)) else Create(cfg, f, w, gas, amount, data, salt)
    case Destroy(to) => SelfDestruct(cfg, f, w, to)
    case _ => Simple(cfg, f, w, action)
  }

  /** The frame with what the operation has certainly cost put back: one gas, and the stipend of a transfer. */
  ghost function WithSpare(cfg: Config, f: Frame, action: Action): Frame {
    f.(run := f.run.(gasLeft := f.run.gasLeft + (if action.Halts() then 0 else 1)
                                + (if action.Transfers() then cfg.callStipendGas else 0)))
  }

  /** A call operation: its gas must be there, and a transfer of value adds the stipend (functions.ts:1433-1460). */
  ghost function StartCall(cfg: Config, f: Frame, w: World, action: Action): (turn: Turn)
    requires FrameOk(cfg, f, w) && action.CallTo?
    ensures TurnOk(cfg, WithSpare(cfg, f, action), w, turn)
    decreases cfg.stackLimit - f.env.depth, 2, 1
  {
    hide PrecompilesOk, CallMessage;
    if action.gas > f.run.gasLeft then Ends(f, w, 0, Some(OutOfGas))
    else
      var stipend := if action.Transfers() then cfg.callStipendGas else 0;
      var f1 := f.(run := f.run.(gasLeft := f.run.gasLeft + stipend));
      BaseCall(cfg, f1, w, CallMessage(f1, action.kind, action.gas + stipend, action.address, action.amount,
                                       action.data))
  }

  /** The messages of `call`, `callCode`, `callStatic` and `callDelegate` (interpreter.ts:878-970). */
  ghost function CallMessage(f: Frame, kind: CallKind, gas: nat, address: Address, amount: nat,
                             data: Bytes): (msg: Message)
    ensures msg.depth == f.env.depth + 1 && msg.gasLimit == gas
    ensures msg.to.Some? && (msg.delegatecall ==> msg.to.value == f.env.address)
  {
    var env := f.env;
    match kind
    case Call => Message(env.address, Some(address), None, gas, amount, data, None, env.depth + 1, env.isStatic, None,
                         false, {}, {}, 0)
    case CallCode =>
      Message(env.address, Some(env.address), Some(address), gas, amount, data, None, env.depth + 1, env.isStatic, None,
              false, {}, {}, 0)
    case StaticCall => Message(env.address, Some(address), None, gas, amount, data, None, env.depth + 1, true, None,
                               false, {}, {}, 0)
    case DelegateCall =>
      Message(env.caller, Some(env.address), Some(address), gas, amount, data, None, env.depth + 1, env.isStatic, None,
              true, {}, {}, 0)
  }

  /** Everything that starts no other frame. */
  ghost function Simple(cfg: Config, f: Frame, w: World, action: Action): (turn: Turn)
    requires FrameOk(cfg, f, w) && !action.CallTo? && !action.CreateWith? && !action.Destroy?
    ensures turn.world.accounts == w.accounts && Keeps(w, turn.world) && turn.burned == 0
    ensures turn.frame.env == f.env && turn.frame.run.gasLeft == f.run.gasLeft
    ensures turn.Ends? ==> turn.error != Some(CodestoreOutOfGas)
    ensures turn.Goes? ==> !action.Halts()
  {
    match action
    case Compute => Goes(f, w, 0)
    case AddRefund(amount) => Goes(f.(run := f.run.(gasRefund := f.run.gasRefund + amount)), w, 0)
    case SubRefund(amount) =>
      if f.run.gasRefund < amount then Ends(f.(run := f.run.(gasRefund := 0)), w, 0, Some(RefundExhausted))
      else Goes(f.(run := f.run.(gasRefund := f.run.gasRefund - amount)), w, 0)
    case SStore(key, value) =>
      var w1 := PutStorage(w, f.env.address, key, value);
      Goes(f.(env := f.env.(contract := GetAccount(w1, f.env.address).value)), w1, 0)
    case TStore(slot, word) =>
      if !cfg.eip1153 then Ends(f, w, 0, Some(InvalidOpcode))
      else Goes(f, w.(transient := PutTransient(w.transient, f.env.address, slot, word)), 0)
    case TouchWarm(address) => Goes(f, WarmedAddress(w, address), 0)
    case TouchWarmSlot(address, slot) => Goes(f, WarmedSlot(w, address, slot), 0)
    case Emit(numberOfTopics, topics, data) =>
      if numberOfTopics < 0 || numberOfTopics > 4 then Ends(f, w, 0, Some(OutOfRange))
      else if |topics| != numberOfTopics then Ends(f, w, 0, Some(InternalError))
      else Goes(f.(result := f.result.(logs := f.result.logs + [LogEntry(f.env.address, topics, data)])), w, 0)
    case Finish(data) => Ends(f.(result := f.result.(returnValue := Some(data))), w, 0, None)
    case RevertWith(data) => Ends(f.(result := f.result.(returnValue := Some(data))), w, 0, Some(Reverted))
    case Trap(code) => Ends(f, w, 0, Some(Other(code)))
    case _ => Ends(f, w, 0, None)
  }

  /** The message a frame sends, with copies of its sets and its refund. */
  ghost function Sent(cfg: Config, f: Frame, msg: Message): Message {
    msg.(selfdestruct := f.result.selfdestruct, gasRefund := f.run.gasRefund,
         created := if cfg.eip6780 then f.result.created else {})
  }

  /** The call is not made. */
  ghost function Skipped(f: Frame): Frame {
    f.(run := f.run.(returnBytes := [], returned := Zero))
  }

  /** `_baseCall` (interpreter.ts:972-1034). */
  ghost function BaseCall(cfg: Config, f: Frame, w: World, msg: Message): (turn: Turn)
    requires FrameOk(cfg, f, w) && msg.depth == f.env.depth + 1 && msg.gasLimit <= f.run.gasLeft
    requires msg.to.Some? && (msg.delegatecall ==> msg.to.value == f.env.address)
    ensures turn.Goes? && Keeps(w, turn.world) && FrameOk(cfg, turn.frame, turn.world)
    ensures turn.frame.env == f.env.(contract := turn.frame.env.contract) && turn.frame.run.gasLeft <= f.run.gasLeft
    decreases cfg.stackLimit - f.env.depth, 2, 0
  {
    hide PrecompilesOk, Resumed;
    if f.env.depth >= cfg.stackLimit || (!msg.delegatecall && f.env.contract.balance < msg.value) then
      Goes(Skipped(f), w, 0)
    else
      var o := RunCall(cfg, w, Sent(cfg, f, msg));
      var ok := o.result.error.None?;
      Goes(Resumed(cfg, f, o, ok, ok || o.result.error == Some(Reverted), if ok then One else Zero), o.world, o.burned)
  }

  /** The frame after a message has come back: `merged` when its effects count, `returning` when its
      return data is kept. */
  ghost function Resumed(cfg: Config, f: Frame, o: Outcome, merged: bool, returning: bool,
                         returned: Returned): (f': Frame)
    requires o.result.gasUsed <= f.run.gasLeft
    requires merged ==> GetAccount(o.world, f.env.address).Some?
    ensures f'.env == f.env.(contract := f'.env.contract) && f'.run.gasLeft == f.run.gasLeft - o.result.gasUsed
    ensures if merged then Coherent(f', o.world) else f'.env == f.env
  {
    var r := o.result;
    var run := f.run.(gasLeft := f.run.gasLeft - r.gasUsed, returnBytes := if returning then r.returnValue else [],
                      returned := returned);
    var result := f.result.(logs := f.result.logs + r.logs);
    if merged then
      Frame(f.env.(contract := GetAccount(o.world, f.env.address).value), run.(gasRefund := r.gasRefund),
            result.(selfdestruct := result.selfdestruct + r.selfdestruct,
                    created := if cfg.eip6780 then result.created + r.created else result.created))
    else Frame(f.env, run, result)
  }

  /** `create` (interpreter.ts:1039-1142). */
  ghost function Create(cfg: Config, f: Frame, w: World, gas: nat, value: nat, code: Bytes,
                        salt: Option<Bytes>): (turn: Turn)
    requires FrameOk(cfg, f, w) && gas <= f.run.gasLeft
    ensures turn.Goes? && Keeps(w, turn.world) && FrameOk(cfg, turn.frame, turn.world)
    ensures turn.frame.env == f.env.(contract := turn.frame.env.contract) && turn.frame.run.gasLeft <= f.run.gasLeft
    decreases cfg.stackLimit - f.env.depth, 2, 0
  {
    hide PrecompilesOk;
    var env := f.env;
    if env.depth >= cfg.stackLimit || env.contract.balance < value || env.contract.nonce >= MAX_UINT64 then
      Goes(Skipped(f), w, 0)
    else
      var contract := env.contract.(nonce := env.contract.nonce + 1);
      var w1 := PutAccount(w, env.address, contract);
      var f1 := f.(env := env.(contract := contract));
      if cfg.eip3860 && |code| > cfg.maxInitCodeSize && !cfg.allowUnlimitedInitCodeSize then Goes(Skipped(f1), w1, 0)
      else
        CreateRun(cfg, f1, w1, gas, value, code, salt)
  }

  /** Sending the message of a create, and taking its result. */
  ghost function CreateRun(cfg: Config, f: Frame, w: World, gas: nat, value: nat, code: Bytes,
                           salt: Option<Bytes>): (turn: Turn)
    requires FrameOk(cfg, f, w) && gas <= f.run.gasLeft && f.env.depth < cfg.stackLimit
             && value <= f.env.contract.balance
    ensures turn.Goes? && Keeps(w, turn.world) && FrameOk(cfg, turn.frame, turn.world)
    ensures turn.frame.env == f.env.(contract := turn.frame.env.contract) && turn.frame.run.gasLeft <= f.run.gasLeft
    decreases cfg.stackLimit - f.env.depth, 1, 0
  {
    hide PrecompilesOk, Resumed;
    var msg := Message(f.env.address, None, None, gas, value, code, None, f.env.depth + 1, false, salt, false, {}, {},
                       0);
    var o := RunCall(cfg, w, Sent(cfg, f, msg));
    var merged := o.result.error.None? || o.result.error == Some(CodestoreOutOfGas);
    var returned := if merged && o.createdAddress.Some? then Created(o.createdAddress.value)
                    else if o.result.error.None? then One else Zero;
    Goes(Resumed(cfg, f, o, merged, o.result.error == Some(Reverted), returned), o.world, o.burned)
  }

  /** `_selfDestruct` (interpreter.ts:1181-1224). */
  ghost function SelfDestruct(cfg: Config, f: Frame, w: World, to: Address): (turn: Turn)
    requires FrameOk(cfg, f, w)
    ensures turn.Ends? && turn.error.None? && Keeps(w, turn.world)
    ensures turn.frame.env == f.env && turn.frame.run.gasLeft == f.run.gasLeft
  {
    var self, balance := f.env.address, f.env.contract.balance;
    var refund := if self in f.result.selfdestruct then 0 else cfg.selfdestructRefundGas;
    var f1 := f.(run := f.run.(gasRefund := f.run.gasRefund + refund),
                 result := f.result.(selfdestruct := f.result.selfdestruct + {self}));
    var w1 := if to == self then w
              else
                var toAccount := AccountOr(cfg, w, to);
                PutAccount(w, to, toAccount.(balance := toAccount.balance + balance));
    var doModify := !cfg.eip6780 || self in f.result.created || to != self;
    var w2 := if doModify then SetAccount(w1, self, AccountOr(cfg, w1, self).(balance := 0)) else w1;
    Ends(f1, w2, if doModify && to == self then balance else 0, None)
  }
}
