/** Call trees told as a list of deeds. The EVM keeps every frame's effects in copies that are merged or thrown
    away as its message ends well or badly. Here a call tree is told as the flat list of what the surviving frames
    did, in order, and a single ledger, without checkpoints, frames or copies, replays that list. `EvmReplay`
    proves that both come to the same. */
module EvmStory {
  import opened Wrappers
  import opened JournalLog
  import opened EvmTypes
  import opened EvmSpec

  /** What is done to the state and to the results of a transaction: a nonce goes up, ether is paid, a contract
      begins, gets its code or is left without any, an address becomes warm, or a frame at an address does something. */
  datatype Deed =
    | Counted(address: Address)
    | Paid(from: Address, to: Address, value: nat)
    | Began(address: Address)
    | Deployed(address: Address, code: Bytes)
    | LeftEmpty(address: Address)
    | Warmed(address: Address)
    | Did(at: Address, action: Action)

  /** The state, without the address that stays touched, and what a transaction gathers. */
  datatype Ledger = Ledger(
    accounts: map<Address, Option<Account>>, codes: map<Address, Bytes>, storage: map<(Address, Bytes), Bytes>,
    transient: map<(Address, Bytes), Bytes>, warm: WarmMap, touched: set<Address>,
    logs: seq<LogEntry>, destroyed: set<Address>, created: set<Address>, refund: int)

  // ---------------------------------------------------------------------------------------
  // Replaying
  // ---------------------------------------------------------------------------------------

  type Accounts = map<Address, Option<Account>>

  function Holder(cfg: Config, m: Accounts, a: Address): Account {
    (if a in m then m[a] else None).UnwrapOr(NewAccount(cfg))
  }

  function WithNonce(cfg: Config, m: Accounts, a: Address, more: nat): Accounts {
    m[a := Some(Holder(cfg, m, a).(nonce := Holder(cfg, m, a).nonce + more))]
  }

  function WithBalance(cfg: Config, m: Accounts, a: Address, balance: nat): Accounts {
    m[a := Some(Holder(cfg, m, a).(balance := balance))]
  }

  function WithCode(cfg: Config, m: Accounts, a: Address, code: Bytes): Accounts {
    m[a := Some(Holder(cfg, m, a).(codeHash := cfg.keccak(code)))]
  }

  function WithPayment(cfg: Config, m: Accounts, from: Address, to: Address, value: nat): Accounts {
    var left := Holder(cfg, m, from).balance - value;
    var m1 := WithBalance(cfg, m, from, if left < 0 then 0 else left);
    WithBalance(cfg, m1, to, Holder(cfg, m1, to).balance + value)
  }

  /** All the ether of a contract goes to another account, or is lost if it names itself. */
  function WithSweep(cfg: Config, m: Accounts, at: Address, to: Address): Accounts {
    var m1 := if to == at then m
              else WithBalance(cfg, m, to, Holder(cfg, m, to).balance + Holder(cfg, m, at).balance);
    WithBalance(cfg, m1, at, 0)
  }

  function Touching(touched: set<Address>, a: Address): set<Address> {
    touched + ({a} - {RIPEMD160})
  }

  function Apply(cfg: Config, l: Ledger, deed: Deed): Ledger {
    match deed
    case Counted(a) => l.(accounts := WithNonce(cfg, l.accounts, a, 1), touched := Touching(l.touched, a))
    case Paid(from, to, value) =>
      l.(accounts := WithPayment(cfg, l.accounts, from, to, value), touched := Touching(Touching(l.touched, from), to))
    case Began(a) =>
      l.(accounts := WithNonce(cfg, l.accounts, a, if cfg.spuriousDragon then 1 else 0),
         touched := Touching(l.touched, a), created := if cfg.eip6780 then l.created + {a} else l.created)
    case Deployed(a, code) => l.(accounts := WithCode(cfg, l.accounts, a, code), codes := l.codes[a := code])
    case LeftEmpty(a) => l.(accounts := WithNonce(cfg, l.accounts, a, 0), touched := Touching(l.touched, a))
    case Warmed(a) => l.(warm := l.warm[a := SlotsOf(l.warm, a)])
    case Did(at, action) => Done(cfg, l, at, action)
  }

  /** What an operation does by itself. A contract that is destroyed in its own favour loses its ether; with EIP-6780
      it keeps it unless the transaction created it. */
  function Done(cfg: Config, l: Ledger, at: Address, action: Action): Ledger {
    match action
    case AddRefund(amount) => l.(refund := l.refund + amount)
    case SubRefund(amount) => l.(refund := l.refund - amount)
    case SStore(key, value) => l.(storage := l.storage[(at, key) := value])
    case TStore(slot, word) => l.(transient := PutTransient(l.transient, at, slot, word))
    case TouchWarm(a) => l.(warm := l.warm[a := SlotsOf(l.warm, a)])
    case TouchWarmSlot(a, slot) => l.(warm := l.warm[a := SlotsOf(l.warm, a) + {slot}])
    case Emit(_, topics, data) => l.(logs := l.logs + [LogEntry(at, topics, data)])
    case Destroy(to) =>
      var kept := cfg.eip6780 && at !in l.created && to == at;
      l.(accounts := if kept then l.accounts else WithSweep(cfg, l.accounts, at, to),
         touched := if to == at then l.touched else Touching(l.touched, to),
         refund := l.refund + if at in l.destroyed then 0 else cfg.selfdestructRefundGas,
         destroyed := l.destroyed + {at})
    case _ => l
  }

  function Replay(cfg: Config, l: Ledger, deeds: seq<Deed>): Ledger
    decreases |deeds|
  {
    if deeds == [] then l else Replay(cfg, Apply(cfg, l, deeds[0]), deeds[1..])
  }

  // ---------------------------------------------------------------------------------------
  // Telling
  // ---------------------------------------------------------------------------------------

  /** A frame goes on, or has ended, with or without an error. */
  datatype Fate = Running | Ended(error: Option<Err>)

  /** The deeds, the gas they cost, the data handed back, and the end. */
  datatype Story = Story(deeds: seq<Deed>, gas: int, output: Bytes, fate: Fate)

  function Ending(error: Option<Err>): Story {
    Story([], 0, [], Ended(error))
  }

  /** Errors that strike out what a message did: all but a code deposit that could not be paid on Frontier. */
  predicate StrikesOut(cfg: Config, fate: Fate) {
    fate.Ended? && fate.error.Some? && (cfg.homestead || fate.error != Some(CodestoreOutOfGas))
  }

  /** A message: what comes before its checkpoint stays, the rest only if the message ends well. */
  ghost function MessageStory(cfg: Config, w: World, msg: Message): (s: Story)
    requires MessageOk(cfg, w, msg)
    decreases cfg.stackLimit - msg.depth, 7, 0
  {
    var (w1, msg1) := WarmCreated(cfg, CountTransaction(cfg, w, msg), msg);
    var s := if msg1.to.Some? then CallStory(cfg, w1, msg1) else CreateStory(cfg, w1, msg1);
    s.(deeds := Before(cfg, w, msg) + if StrikesOut(cfg, s.fate) then [] else s.deeds)
  }

  /** A transaction is counted, and the address of a create is warm even when it fails. */
  ghost function Before(cfg: Config, w: World, msg: Message): seq<Deed> {
    (if msg.depth == 0 then [Counted(msg.caller)] else [])
    + if msg.to.None? && cfg.eip2929
      then [Warmed(AddressFor(cfg, CountTransaction(cfg, w, msg), msg.(code := Some(msg.data))))]
      else []
  }

  /** A payment fails when the payer has too little, or the receiver would have too much. */
  function PaymentError(have: nat, held: nat, value: nat): Option<Err> {
    if held + value > MAX_INTEGER then Some(ValueOverflow)
    else if have < value then Some(InsufficientBalance)
    else None
  }

  ghost function CallStory(cfg: Config, w: World, msg: Message): (s: Story)
    requires MessageOk(cfg, w, msg) && msg.to.Some?
    decreases cfg.stackLimit - msg.depth, 6, 0
  {
    var to := msg.to.value;
    var have, held := AccountOr(cfg, w, msg.caller).balance, AccountOr(cfg, w, to).balance;
    var error := if msg.delegatecall then None
                 else PaymentError(have, if msg.caller == to && msg.value <= held then held - msg.value else held,
                                   msg.value);
    if error.Some? || Transferred(cfg, w, msg).1.Some? then Ending(error)
    else
      var s := CodeStory(cfg, Transferred(cfg, w, msg).0, msg, msg.codeAddress.UnwrapOr(to));
      if msg.delegatecall then s else s.(deeds := [Paid(msg.caller, to, msg.value)] + s.deeds)
  }

  /** The code of the message or of the address, a precompile, or nothing. */
  ghost function CodeStory(cfg: Config, w: World, msg: Message, codeAddress: Address): (s: Story)
    requires GoodConfig(cfg) && msg.depth <= cfg.stackLimit && msg.to.Some? && GetAccount(w, msg.to.value).Some?
    decreases cfg.stackLimit - msg.depth, 5, 1
  {
    var code := msg.code.UnwrapOr(GetCode(w, codeAddress));
    if msg.code.None? && cfg.isPrecompile(codeAddress) then
      var p := cfg.precompile(codeAddress, msg.data, msg.gasLimit);
      Story([], p.gasUsed, p.returnValue, Ended(p.error))
    else if code == [] then Ending(None)
    else FirstStory(cfg, w, msg.(code := Some(code)), false)
  }

  /** A frame from its start: an error that is no revert costs all gas. */
  ghost function FirstStory(cfg: Config, w: World, msg: Message, isCreate: bool): (s: Story)
    requires GoodConfig(cfg) && msg.depth <= cfg.stackLimit
    requires msg.to.Some? && msg.code.Some? && GetAccount(w, msg.to.value).Some?
    decreases cfg.stackLimit - msg.depth, 5, 0
  {
    var s := FrameStory(cfg, FirstFrame(cfg, w, msg, isCreate), w);
    if s.fate in {Ended(None), Ended(Some(Reverted))} then s else s.(gas := msg.gasLimit)
  }

  /** Only an account without nonce, code and storage can become a contract. */
  function Used(cfg: Config, account: Account): bool {
    !(account.nonce == 0 && account.codeHash == NewAccount(cfg).codeHash
      && account.storageRoot == NewAccount(cfg).storageRoot)
  }

  ghost function CreateStory(cfg: Config, w: World, msg: Message): (s: Story)
    requires MessageOk(cfg, w, msg) && msg.to.None?
    decreases cfg.stackLimit - msg.depth, 6, 0
  {
    var w1 := Debited(cfg, w, msg).0;
    var msg1 := msg.(code := Some(msg.data), data := []);
    var to := AddressFor(cfg, w1, msg1);
    if cfg.eip3860 && |msg.data| > cfg.maxInitCodeSize && !cfg.allowUnlimitedInitCodeSize then
      Ending(Some(InitcodeSizeViolation)).(gas := msg.gasLimit)
    else if Used(cfg, AccountOr(cfg, w1, to)) then Ending(Some(CreateCollision)).(gas := msg.gasLimit)
    else
      var s := NewStory(cfg, w1,
                        msg1.(to := Some(to), created := if cfg.eip6780 then msg.created + {to} else msg.created));
      s.(deeds := [Began(to), Paid(msg.caller, to, msg.value)] + s.deeds)
  }

  /** The init code of a new contract, and the deposit of its code. */
  ghost function NewStory(cfg: Config, w: World, msg: Message): (s: Story)
    requires GoodConfig(cfg) && msg.depth <= cfg.stackLimit && msg.to.Some? && msg.code.Some?
    decreases cfg.stackLimit - msg.depth, 5, 1
  {
    if AccountOr(cfg, w, msg.to.value).balance + msg.value > MAX_INTEGER then Ending(Some(ValueOverflow))
    else if msg.code.value == [] then Ending(None)
    else DepositStory(cfg, msg.gasLimit, msg.to.value, FirstStory(cfg, Endowed(cfg, w, msg).0, msg, true))
  }

  /** Code is paid for by the byte, limited in size, and must not be in the reserved format; on Frontier the
      contract stays without code when the payment fails. */
  function DepositStory(cfg: Config, gasLimit: nat, to: Address, s: Story): Story {
    var gas := if s.fate == Ended(None) then s.gas + |s.output| * cfg.createDataGas else s.gas;
    var tooLong := s.fate == Ended(None) && cfg.spuriousDragon && |s.output| > cfg.maxCodeSize;
    if gas > gasLimit || (tooLong && !cfg.allowUnlimitedContractSize) then
      if cfg.homestead then
        Story(s.deeds, gasLimit, [], Ended(Some(if tooLong then CodesizeExceedsMaximum else OutOfGas)))
      else Story(s.deeds + [LeftEmpty(to)], s.gas, [], Ended(Some(CodestoreOutOfGas)))
    else if cfg.eip3541 && s.output != [] && s.output[0] == FORMAT then
      Story(s.deeds, gasLimit, [], Ended(Some(InvalidBytecode)))
    else if s.fate == Ended(None) && s.output != [] then s.(deeds := s.deeds + [Deployed(to, s.output)], gas := gas)
    else s.(gas := gas)
  }

  /** The fee; at least one gas, unless the operation ends the frame; and more for a call that sends ether. */
  function Charge(cfg: Config, step: Step): nat {
    var fee := if step.action.Halts() then step.fee else step.fee + 1;
    if step.action.Transfers() then fee + cfg.callValueTransferGas else fee
  }

  /** The rest of a frame: one operation, and what follows. */
  ghost function FrameStory(cfg: Config, f: Frame, w: World): (s: Story)
    requires FrameOk(cfg, f, w)
    decreases cfg.stackLimit - f.env.depth, 4, f.run.gasLeft
  {
    var step := cfg.handler(f, w);
    var cost := Charge(cfg, step);
    if f.run.gasLeft < cost then Ending(Some(OutOfGas)).(gas := f.run.gasLeft)
    else
      var f1 := f.(run := f.run.(gasLeft := f.run.gasLeft - cost, local := step.local));
      var s := ActionStory(cfg, f1, w, step.action);
      var turn := RunStep(cfg, f, w);
      if turn.Ends? then s.(gas := cost + s.gas)
      else
        var rest := FrameStory(cfg, turn.frame, turn.world);
        rest.(deeds := s.deeds + rest.deeds, gas := cost + s.gas + rest.gas)
  }

  /** An operation that has been paid for. */
  ghost function ActionStory(cfg: Config, f: Frame, w: World, action: Action): (s: Story)
    requires FrameOk(cfg, f, w)
    decreases cfg.stackLimit - f.env.depth, 2, 2
  {
    var did := Story([Did(f.env.address, action)], 0, [], Running);
    match action
    case CallTo(kind, gas, address, amount, data) =>
      if gas > f.run.gasLeft then Ending(Some(OutOfGas)) else SendStory(cfg, f, w, action)
    case CreateWith(gas, amount, data, salt) =>
      if gas > f.run.gasLeft then Ending(Some(OutOfGas))
      else ContractStory(cfg, f, w, gas, amount, data, salt)
    case Compute => did.(deeds := [])
    case SubRefund(amount) => if f.run.gasRefund < amount then Ending(Some(RefundExhausted)) else did
    case TStore(_, _) => if cfg.eip1153 then did else Ending(Some(InvalidOpcode))
    case Emit(n, topics, _) =>
      if n < 0 || n > 4 then Ending(Some(OutOfRange))
      else if |topics| != n then Ending(Some(InternalError))
      else did
    case Destroy(_) => did.(fate := Ended(None))
    case Stop => Ending(None)
    case Finish(data) => Ending(None).(output := data)
    case RevertWith(data) => Ending(Some(Reverted)).(output := data)
    case Trap(code) => Ending(Some(Other(code)))
    case _ => did
  }

  /** A call: the stipend of a transfer is given on top, and given back if the call is not made. */
  ghost function SendStory(cfg: Config, f: Frame, w: World, action: Action): (s: Story)
    requires FrameOk(cfg, f, w) && action.CallTo? && action.gas <= f.run.gasLeft
    decreases cfg.stackLimit - f.env.depth, 2, 1
  {
    var stipend := if action.Transfers() then cfg.callStipendGas else 0;
    if f.env.depth >= cfg.stackLimit || (action.kind != DelegateCall && f.env.contract.balance < action.amount) then
      Story([], -stipend, [], Running)
    else
      var msg := CallMessage(f, action.kind, action.gas + stipend, action.address, action.amount, action.data);
      var s := MessageStory(cfg, w, Sent(cfg, f, msg));
      Story(s.deeds, s.gas - stipend, [], Running)
  }

  /** A create: the nonce is counted whatever becomes of it, once it is tried. */
  ghost function ContractStory(cfg: Config, f: Frame, w: World, gas: nat, value: nat, code: Bytes,
                               salt: Option<Bytes>): (s: Story)
    requires FrameOk(cfg, f, w) && gas <= f.run.gasLeft
    decreases cfg.stackLimit - f.env.depth, 2, 0
  {
    var env := f.env;
    if env.depth >= cfg.stackLimit || env.contract.balance < value || env.contract.nonce >= MAX_UINT64 then
      Story([], 0, [], Running)
    else if cfg.eip3860 && |code| > cfg.maxInitCodeSize && !cfg.allowUnlimitedInitCodeSize then
      Story([Counted(env.address)], 0, [], Running)
    else
      var contract := env.contract.(nonce := env.contract.nonce + 1);
      var w1 := PutAccount(w, env.address, contract);
      var msg := Message(env.address, None, None, gas, value, code, None, env.depth + 1, false, salt, false, {}, {}, 0);
      var s := MessageStory(cfg, w1, Sent(cfg, f, msg));
      Story([Counted(env.address)] + s.deeds, s.gas, [], Running)
  }
}
