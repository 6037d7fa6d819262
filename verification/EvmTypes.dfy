/** Accounts, messages and results of `packages/evm`, and the state its messages change.

    Opcode handlers are not modelled one by one: `Config.handler` stands for all of them, as an
    arbitrary function of everything a frame can see. */
module EvmTypes {
  import opened Wrappers
  import opened JournalLog
  import Rlp

  type Bytes = Rlp.Bytes

  /** A word from the stack, filled up to 32 bytes, and one at its shortest. */
  type FullWord = word: Bytes | |word| == 32 witness ZERO_WORD
  type ShortWord = word: Bytes | |word| <= 32

  const MAX_INTEGER := 0x1_0000_0000_0000_0000_0000_0000_0000_0000_0000_0000_0000_0000_0000_0000_0000_0000 - 1
  const MAX_UINT64 := 0x1_0000_0000_0000_0000 - 1
  /** The first byte of an EOF container (EIP-3541). */
  const FORMAT := 0xef

  datatype Account = Account(nonce: nat, balance: nat, codeHash: Bytes, storageRoot: Bytes)

  /** Accounts are `undefined` when deleted. Transient slots that are 32 zero bytes are left out. */
  datatype World = World(
    accounts: map<Address, Option<Account>>, codes: map<Address, Bytes>, storage: map<(Address, Bytes), Bytes>,
    transient: map<(Address, Bytes), Bytes>, warm: WarmMap, touched: set<Address>)

  // ---------------------------------------------------------------------------------------
  // Messages and frames
  // ---------------------------------------------------------------------------------------

  datatype Err =
    | OutOfGas | Reverted | CodestoreOutOfGas | InsufficientBalance | ValueOverflow | CreateCollision
    | InitcodeSizeViolation | CodesizeExceedsMaximum | InvalidBytecode | RefundExhausted | OutOfRange
    | InternalError | InvalidOpcode | Other(code: nat)

  datatype LogEntry = LogEntry(address: Address, topics: seq<Bytes>, data: Bytes)

  /** `created` is the set shared with the frame that executes the message. */
  datatype Message = Message(
    caller: Address, to: Option<Address>, codeAddress: Option<Address>, gasLimit: nat, value: nat, data: Bytes,
    code: Option<Bytes>, depth: nat, isStatic: bool, salt: Option<Bytes>, delegatecall: bool,
    selfdestruct: set<Address>, created: set<Address>, gasRefund: nat)

  datatype Env = Env(
    address: Address, caller: Address, callValue: nat, callData: Bytes, code: Bytes, isStatic: bool, isCreate: bool,
    depth: nat, contract: Account)

  /** What the last call or create pushed on the stack. */
  datatype Returned = Zero | One | Created(address: Address)

  /** `local` stands for the stack, the memory and the program counter. */
  datatype RunState = RunState(gasLeft: nat, gasRefund: nat, returnBytes: Bytes, returned: Returned, local: seq<int>)

  datatype RunResult = RunResult(
    logs: seq<LogEntry>, returnValue: Option<Bytes>, selfdestruct: set<Address>, created: set<Address>)

  datatype Frame = Frame(env: Env, run: RunState, result: RunResult)

  datatype CallKind = Call | CallCode | DelegateCall | StaticCall

  datatype Action =
    | Compute
    | AddRefund(amount: nat)
    | SubRefund(amount: nat)
    | SStore(key: Bytes, value: Bytes)
    | TStore(slot: FullWord, word: ShortWord)
    | TouchWarm(address: Address)
    | TouchWarmSlot(address: Address, warmSlot: Slot)
    | Emit(numberOfTopics: int, topics: seq<Bytes>, data: Bytes)
    | CallTo(kind: CallKind, gas: nat, address: Address, amount: nat, data: Bytes)
    | CreateWith(gas: nat, amount: nat, data: Bytes, salt: Option<Bytes>)
    | Destroy(address: Address)
    | Stop
    | Finish(data: Bytes)
    | RevertWith(data: Bytes)
    | Trap(code: nat)
  {
    /** A handler that always ends the frame. */
    predicate Halts() {
      Destroy? || Stop? || Finish? || RevertWith? || Trap?
    }

    /** A call that charges for a value transfer, and gets the stipend. */
    predicate Transfers() {
      CallTo? && (kind.Call? || kind.CallCode?) && amount != 0
    }
  }

  /** The next operation, its gas beyond what every operation of its kind costs, and the local state after it. */
  datatype Step = Step(fee: nat, action: Action, local: seq<int>)

  datatype PrecompileResult = PrecompileResult(gasUsed: nat, error: Option<Err>, returnValue: Bytes)

  /** Hardfork switches, parameters, and the code that is not modelled. */
  datatype Config = Config(
    homestead: bool, spuriousDragon: bool, eip1153: bool, eip2929: bool, eip3541: bool, eip3860: bool, eip6780: bool,
    stackLimit: nat, maxInitCodeSize: nat, maxCodeSize: nat, createDataGas: nat, selfdestructRefundGas: nat,
    callStipendGas: nat, callValueTransferGas: nat,
    allowUnlimitedInitCodeSize: bool, allowUnlimitedContractSize: bool,
    keccak: Bytes -> Bytes, generateAddress: (Address, int) -> Address,
    generateAddress2: (Address, Bytes, Bytes) -> Address,
    isPrecompile: Address -> bool, precompile: (Address, Bytes, nat) -> PrecompileResult,
    handler: (Frame, World) -> Step)

  /** A stipend is smaller than what the transfer costs, and a precompile stays within its gas. */
  ghost predicate GoodConfig(cfg: Config) {
    cfg.callStipendGas <= cfg.callValueTransferGas && PrecompilesOk(cfg)
  }

  ghost predicate PrecompilesOk(cfg: Config) {
    forall a, data, gas: nat :: PrecompileOk(cfg.precompile(a, data, gas), gas)
  }

  predicate PrecompileOk(r: PrecompileResult, gas: nat) {
    r.gasUsed <= gas && r.error != Some(CodestoreOutOfGas)
  }

  datatype ExecResult = ExecResult(
    returnValue: Bytes, gasUsed: nat, gasRefund: nat, error: Option<Err>, logs: seq<LogEntry>,
    selfdestruct: set<Address>, created: set<Address>)

  // ---------------------------------------------------------------------------------------
  // The state
  // ---------------------------------------------------------------------------------------

  function NewAccount(cfg: Config): Account {
    Account(0, 0, cfg.keccak([]), cfg.keccak([0x80]))
  }

  function GetAccount(w: World, a: Address): Option<Account> {
    if a in w.accounts then w.accounts[a] else None
  }

  function AccountOr(cfg: Config, w: World, a: Address): Account {
    GetAccount(w, a).UnwrapOr(NewAccount(cfg))
  }

  /** `putAccount` of the state manager. */
  function SetAccount(w: World, a: Address, account: Account): (r: World)
    ensures Keeps(w, r) && GetAccount(r, a) == Some(account)
  {
    w.(accounts := w.accounts[a := Some(account)])
  }

  /** `putAccount` of the journal. */
  function PutAccount(w: World, a: Address, account: Account): (r: World)
    ensures Keeps(w, r) && GetAccount(r, a) == Some(account)
  {
    SetAccount(w, a, account).(touched := w.touched + {a})
  }

  function GetCode(w: World, a: Address): Bytes {
    if a in w.codes then w.codes[a] else []
  }

  /** `putCode` of the state manager. */
  function PutCode(cfg: Config, w: World, a: Address, code: Bytes): (r: World)
    ensures Keeps(w, r)
  {
    SetAccount(w.(codes := w.codes[a := code]), a, AccountOr(cfg, w, a).(codeHash := cfg.keccak(code)))
  }

  function PutStorage(w: World, a: Address, key: Bytes, value: Bytes): World {
    w.(storage := w.storage[(a, key) := value])
  }

  const ZERO_WORD: Bytes :=
    [0, 0, 0, 0, 0, 0, 0, 0, 0, 0, 0, 0, 0, 0, 0, 0, 0, 0, 0, 0, 0, 0, 0, 0, 0, 0, 0, 0, 0, 0, 0, 0]

  function PutTransient(m: map<(Address, Bytes), Bytes>, a: Address, key: Bytes, value: Bytes)
    : map<(Address, Bytes), Bytes>
  {
    if value == ZERO_WORD then m - {(a, key)} else m[(a, key) := value]
  }

  function WarmedAddress(w: World, a: Address): World {
    w.(warm := w.warm[a := SlotsOf(w.warm, a)])
  }

  function WarmedSlot(w: World, a: Address, s: Slot): World {
    w.(warm := w.warm[a := SlotsOf(w.warm, a) + {s}])
  }

  /** The state after a failed message: as saved, but the sticky address stays touched, and transient
      storage that has been cleared stays cleared. */
  function RolledBack(saved: World, later: World, cleared: bool): World {
    saved.(touched := saved.touched + (later.touched * {RIPEMD160}),
           transient := if cleared then map[] else saved.transient)
  }

  /** No account disappears, and the sticky address stays touched. */
  ghost predicate Keeps(w: World, w': World) {
    && (forall a :: GetAccount(w, a).Some? ==> GetAccount(w', a).Some?)
    && (RIPEMD160 in w.touched ==> RIPEMD160 in w'.touched)
  }

  lemma {:induction false} KeepsThrough(a: World, b: World, c: World)
    requires Keeps(a, b) && Keeps(b, c)
    ensures Keeps(a, c)
  {}
}
