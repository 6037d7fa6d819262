/** `packages/evm/src/evm.ts` and `interpreter.ts`: messages and frames over a journal, a state manager
    and transient storage, each undone in its own way. Every method is proved to do what `EvmSpec`
    says, and to leave every checkpoint that was open before it as it was. */
module Evm {
  import opened Wrappers
  import opened JournalLog
  import opened TransientLog
  import opened EvmTypes
  import opened StateManager
  import opened TransientStorage
  import J = Journal
  import Spec = EvmSpec

  datatype EVMResult = EVMResult(execResult: ExecResult, createdAddress: Option<Address>)

  /** All that open checkpoints go back to; without EIP-1153 transient storage is not used at all. */
  datatype Checkpoints = Checkpoints(tables: seq<Tables>, snaps: seq<Snap>, indices: seq<nat>, transient: seq<SlotMap>,
                                     idle: Option<TLog>)

  /** An operation leaves the frame running, or ends it with or without an error. */
  datatype Trapped = Running | Halted(error: Option<Err>)

  lemma {:induction false} AccountKept(w: World, w': World, a: Address)
    requires Keeps(w, w') && GetAccount(w, a).Some?
    ensures GetAccount(w', a).Some?
  {}

  class Evm {
    const cfg: Config
    const stateManager: SimpleStateManager
    const journal: J.Journal
    const transientStorage: TransientStorage

    ghost predicate Valid()
      reads stateManager, journal, transientStorage
    {
      && GoodConfig(cfg) && stateManager.cfg == cfg
      && journal.stateManager == stateManager && journal.Valid() && transientStorage.Valid()
    }

    function World(): World
      reads stateManager, journal, transientStorage
      requires Valid()
    {
      var tables := stateManager.Now();
      EvmTypes.World(tables.accounts, tables.codes, tables.storage, transientStorage.Now(), journal.journal,
                     journal.touched)
    }

    ghost function Saved(): Checkpoints
      reads stateManager, journal, transientStorage
      requires Valid()
    {
      Checkpoints(stateManager.Below(), journal.Below(), transientStorage.indices, transientStorage.Below(),
                  if cfg.eip1153 then None else Some(transientStorage.Log()))
    }

    /** Between transactions nothing is left in transient storage. */
    ghost predicate AtRest()
      reads transientStorage
    {
      transientStorage.indices == [0] && transientStorage.changeJournal == [] && transientStorage.Now() == map[]
    }

    /** Every open checkpoint goes back to an empty transient storage. */
    static ghost predicate FromRest(saved: Checkpoints) {
      && |saved.indices| == |saved.transient|
      && forall i | 0 <= i < |saved.indices| :: saved.indices[i] == 0 && saved.transient[i] == map[]
    }

    constructor (cfg: Config)
      requires GoodConfig(cfg)
      ensures Valid() && this.cfg == cfg && AtRest()
      ensures World() == EvmTypes.World(map[], map[], map[], map[], map[], {})
      ensures fresh(stateManager) && fresh(journal) && fresh(transientStorage)
    {
      this.cfg := cfg;
      var state := new SimpleStateManager(cfg);
      var transient := new TransientStorage();
      stateManager, transientStorage := state, transient;
      journal := new J.Journal(state);
      new;
      assert Slots(transientStorage.storage) == {};
    }

    lemma {:induction false} ValidConfig()
      requires Valid()
      ensures GoodConfig(cfg)
    {}

    /** Without EIP-1153 nothing happens to transient storage. */
    twostate lemma {:induction false} Idle()
      requires old(Valid()) && Valid() && Saved().idle == old(Saved()).idle && !cfg.eip1153
      ensures transientStorage.Log() == old(transientStorage.Log()) && World().transient == old(World()).transient
    {}

    /** What being at rest says about the state and its checkpoints, and the other way round. */
    lemma {:induction false} Resting()
      requires Valid() && AtRest()
      ensures World().transient == map[] && Saved().indices == [0]
      ensures FromRest(Saved()) && FromRest(Opened(Saved(), World(), 0))
    {
      assert transientStorage.Below()[0] == transientStorage.Now();
    }

    lemma {:induction false} RestingAgain()
      requires Valid() && Saved().indices == [0] && FromRest(Saved()) && transientStorage.changeJournal == []
      ensures AtRest()
    {
      assert transientStorage.Below()[0] == transientStorage.Now();
    }

    // -------------------------------------------------------------------------------------
    // The state
    // -------------------------------------------------------------------------------------

    method GetAccountOr(address: Address) returns (account: Account)
      requires Valid()
      ensures account == AccountOr(cfg, World(), address)
    {
      var found := stateManager.GetAccount(address);
      account := found.UnwrapOr(NewAccount(cfg));
    }

    method JournalPut(address: Address, account: Account)
      requires Valid()
      modifies journal, stateManager
      ensures Valid() && Saved() == old(Saved())
      ensures World() == PutAccount(old(World()), address, account)
    {
      journal.PutAccount(address, Some(account));
    }

    method FindAccount(address: Address) returns (account: Option<Account>)
      requires Valid()
      ensures account == GetAccount(World(), address)
    {
      account := stateManager.GetAccount(address);
    }

    method FindCode(address: Address) returns (code: Bytes)
      requires Valid()
      ensures code == GetCode(World(), address)
    {
      code := stateManager.GetCode(address);
    }

    method WriteStorage(address: Address, key: Bytes, value: Bytes)
      requires Valid()
      modifies stateManager
      ensures Valid() && Saved() == old(Saved())
      ensures World() == PutStorage(old(World()), address, key, value)
    {
      stateManager.PutStorage(address, key, value);
    }

    method WriteTransient(address: Address, slot: FullWord, word: ShortWord)
      requires Valid() && cfg.eip1153
      modifies transientStorage
      ensures Valid() && Saved() == old(Saved())
      ensures World() == old(World()).(transient := PutTransient(old(World()).transient, address, slot, word))
    {
      var _ := transientStorage.Put(address, slot, word);
    }

    method WriteCode(address: Address, code: Bytes)
      requires Valid()
      modifies stateManager
      ensures Valid() && Saved() == old(Saved())
      ensures World() == PutCode(cfg, old(World()), address, code)
    {
      stateManager.PutCode(address, code);
    }

    /** `modifyAccountFields` with a balance of 0; this goes past the journal. */
    method EmptyAccount(address: Address)
      requires Valid()
      modifies stateManager
      ensures Valid() && Saved() == old(Saved())
      ensures World() == SetAccount(old(World()), address, AccountOr(cfg, old(World()), address).(balance := 0))
    {
      stateManager.ModifyAccountFields(address, NO_FIELDS.(balance := Some(0)));
    }

    method WarmSlot(address: Address, slot: Slot)
      requires Valid()
      modifies journal
      ensures Valid() && Saved() == old(Saved())
      ensures World() == WarmedSlot(old(World()), address, slot)
    {
      journal.AddWarmedStorage(address, slot);
    }

    method WarmAddress(address: Address)
      requires Valid()
      modifies journal
      ensures Valid() && Saved() == old(Saved())
      ensures World() == WarmedAddress(old(World()), address)
    {
      journal.AddWarmedAddress(address);
    }

    /** `_reduceSenderBalance` (evm.ts:1084-1094). */
    method ReduceSenderBalance(account: Account, message: Message) returns (error: Option<Err>)
      requires Valid() && account == AccountOr(cfg, World(), message.caller)
      modifies journal, stateManager
      ensures Valid() && Saved() == old(Saved())
      ensures (World(), error) == Spec.Debited(cfg, old(World()), message)
    {
      var balance := account.balance - message.value;
      if balance < 0 {
        return Some(InsufficientBalance);
      }
      JournalPut(message.caller, account.(balance := balance));
      return None;
    }

    /** `_addToBalance` (evm.ts:1096-1108). */
    method AddToBalance(toAccount: Account, to: Address, value: nat) returns (error: Option<Err>)
      requires Valid()
      modifies journal, stateManager
      ensures Valid() && Saved() == old(Saved())
      ensures (World(), error) == Spec.Credited(old(World()), to, toAccount, value)
    {
      var newBalance := toAccount.balance + value;
      if newBalance > MAX_INTEGER {
        return Some(ValueOverflow);
      }
      JournalPut(to, toAccount.(balance := newBalance));
      return None;
    }

    /** `_generateAddress` (evm.ts:1069-1082). */
    method GenerateAddress(message: Message) returns (address: Address)
      requires Valid()
      ensures address == Spec.AddressFor(cfg, World(), message)
    {
      if message.salt.Some? {
        return cfg.generateAddress2(message.caller, message.salt.value, message.code.UnwrapOr([]));
      }
      var acc := GetAccountOr(message.caller);
      return cfg.generateAddress(message.caller, acc.nonce - 1);
    }

    /** `postMessageCleanup` after the message of a transaction (evm.ts:1113-1115). */
    method Cleanup(depth: nat)
      requires Valid() && (depth == 0 ==> FromRest(Saved()))
      modifies transientStorage
      ensures Valid() && Saved() == old(Saved())
      ensures World() == Spec.Cleaned(cfg, old(World()), depth)
      ensures depth == 0 && cfg.eip1153 ==> transientStorage.changeJournal == []
      ensures !cfg.eip1153 ==> unchanged(transientStorage)
    {
      if depth == 0 && cfg.eip1153 {
        transientStorage.Clear();
        assert transientStorage.Below() == old(transientStorage.Below());
      }
    }

    // -------------------------------------------------------------------------------------
    // Messages
    // -------------------------------------------------------------------------------------

    /** `runCall` (evm.ts:838-980): one checkpoint, and exactly one commit or revert. */
    method RunCall(msg: Message) returns (r: EVMResult)
      requires Valid() && Spec.MessageOk(cfg, World(), msg) && (msg.depth == 0 ==> AtRest())
      modifies journal, stateManager, transientStorage
      ensures Valid() && Saved() == old(Saved()) && (msg.depth == 0 ==> AtRest())
      ensures var o := Spec.RunCall(cfg, old(World()), msg);
              World() == o.world && r == EVMResult(o.result, o.createdAddress)
      decreases cfg.stackLimit - msg.depth, 7, 0
    {
      hide Evm.Valid, Evm.World, Evm.Saved, PrecompilesOk, Spec.Settled, Spec.CountTransaction, Spec.WarmCreated;
      ghost var w := World();
      ghost var saved := Saved();
      var message := Prepare(msg);
      ghost var w0 := Spec.CountTransaction(cfg, w, msg);
      ghost var w1 := World();
      if msg.depth == 0 {
        Resting();
      }
      Checkpoint();
      label Started:
      ghost var o := if message.to.Some? then Spec.ExecuteCall(cfg, w1, message)
        else Spec.ExecuteCreate(cfg, w1, message);
      if message.to.Some? {
        r := ExecuteCall(message);
      } else {
        r := ExecuteCreate(message);
      }
      if !cfg.eip1153 {
        Idle@Started();
      }
      if msg.depth > 0 {
        Spec.NeverCleared(cfg, w1, message);
      }
      r := Settle(r, saved, w1, message, o);
      if msg.depth == 0 {
        RestingAgain();
      }
    }

    /** Counting the transaction and warming a created address (evm.ts:888-907). */
    method Prepare(msg: Message) returns (message: Message)
      requires Valid()
      modifies journal, stateManager
      ensures Valid() && Saved() == old(Saved())
      ensures (World(), message) == Spec.WarmCreated(cfg, Spec.CountTransaction(cfg, old(World()), msg), msg)
      ensures World().transient == old(World()).transient
    {
      hide Evm.Valid, Evm.World, Evm.Saved, PrecompilesOk, Keeps;
      message := msg;
      if message.depth == 0 {
        var callerAccount := GetAccountOr(message.caller);
        JournalPut(message.caller, callerAccount.(nonce := callerAccount.nonce + 1));
      }
      if message.to.None? && cfg.eip2929 {
        message := message.(code := Some(message.data));
        var address := GenerateAddress(message);
        WarmAddress(address);
      }
    }

    /** `journal.checkpoint()` and `transientStorage.checkpoint()`. */
    method Checkpoint()
      requires Valid()
      modifies journal, stateManager, transientStorage
      ensures Valid() && World() == old(World())
              && Saved() == Opened(old(Saved()), old(World()), |old(transientStorage.changeJournal)|)
      ensures transientStorage.changeJournal == old(transientStorage.changeJournal)
    {
      journal.Checkpoint();
      if cfg.eip1153 {
        transientStorage.Checkpoint();
      }
    }

    /** One more open checkpoint. */
    ghost function Opened(saved: Checkpoints, w: World, index: nat): Checkpoints {
      Checkpoints(saved.tables + [Tables(w.accounts, w.codes, w.storage)],
                  saved.snaps + [Snap(w.warm, w.touched - {RIPEMD160})],
                  if cfg.eip1153 then saved.indices + [index] else saved.indices,
                  if cfg.eip1153 then saved.transient + [w.transient] else saved.transient, saved.idle)
    }

    /** What `runCall` does with a result (evm.ts:944-979). */
    method Settle(r0: EVMResult, ghost saved: Checkpoints, ghost w: World, ghost msg: Message, ghost o: Spec.Outcome)
      returns (r: EVMResult)
      requires Valid() && World() == o.world && r0 == EVMResult(o.result, o.createdAddress)
      requires exists index :: Saved() == Opened(saved, w, index)
      requires Keeps(w, o.world) && (o.cleared ==> w.transient == map[])
               && (!cfg.eip1153 ==> o.world.transient == w.transient)
      modifies journal, stateManager, transientStorage
      ensures Valid() && Saved() == saved
      ensures var settled := Spec.Settled(cfg, w, msg, o);
              World() == settled.world && r == EVMResult(settled.result, settled.createdAddress)
      ensures old(transientStorage.changeJournal) == [] ==> transientStorage.changeJournal == []
    {
      var result := r0.execResult;
      var err := result.error;
      if err.Some? && err != Some(CodestoreOutOfGas) {
        result := result.(selfdestruct := {}, created := {});
        result := result.(gasRefund := 0);
      }
      if err.Some? && !(!cfg.homestead && err == Some(CodestoreOutOfGas)) {
        result := result.(logs := []);
        Rollback(saved, w);
      } else {
        Keep(saved, w);
      }
      r := EVMResult(result, r0.createdAddress);
    }

    method Rollback(ghost saved: Checkpoints, ghost w: World)
      requires Valid() && exists index :: Saved() == Opened(saved, w, index)
      requires Keeps(w, World()) && (!cfg.eip1153 ==> World().transient == w.transient)
      modifies journal, stateManager, transientStorage
      ensures Valid() && Saved() == saved && World() == RolledBack(w, old(World()), false)
      ensures old(transientStorage.changeJournal) == [] ==> transientStorage.changeJournal == []
    {
      journal.Revert();
      if cfg.eip1153 {
        transientStorage.Revert();
      }
    }

    method Keep(ghost saved: Checkpoints, ghost w: World)
      requires Valid() && exists index :: Saved() == Opened(saved, w, index)
      modifies journal, stateManager, transientStorage
      ensures Valid() && Saved() == saved && World() == old(World())
      ensures transientStorage.changeJournal == old(transientStorage.changeJournal)
    {
      journal.Commit();
      if cfg.eip1153 {
        transientStorage.Commit();
      }
    }

    /** What a message at the top may rely on below it. */
    ghost predicate FromTop(depth: nat)
      reads stateManager, journal, transientStorage
      requires Valid()
    {
      depth == 0 ==> FromRest(Saved()) && transientStorage.changeJournal == []
    }

    /** `_executeCall` (evm.ts:262-415). */
    method ExecuteCall(message: Message) returns (r: EVMResult)
      requires Valid() && Spec.MessageOk(cfg, World(), message) && message.to.Some? && FromTop(message.depth)
      modifies journal, stateManager, transientStorage
      ensures Valid() && Saved() == old(Saved()) && FromTop(message.depth)
      ensures var o := Spec.ExecuteCall(cfg, old(World()), message);
              World() == o.world && r == EVMResult(o.result, o.createdAddress)
      decreases cfg.stackLimit - message.depth, 6, 0
    {
      hide Evm.Valid, Evm.World, Evm.Saved, PrecompilesOk, Keeps;
      var errorMessage := Transfer(message);
      if errorMessage.Some? {
        return EVMResult(ExecResult([], 0, message.gasRefund, errorMessage, [], message.selfdestruct, message.created),
                         None);
      }
      r := ExecuteCode(message, message.codeAddress.UnwrapOr(message.to.value));
    }

    /** The debit, and the credit whether or not the debit failed (evm.ts:304-348). */
    method Transfer(message: Message) returns (errorMessage: Option<Err>)
      requires Valid() && Spec.MessageOk(cfg, World(), message) && message.to.Some?
      modifies journal, stateManager
      ensures Valid() && Saved() == old(Saved())
      ensures (World(), errorMessage) == Spec.Transferred(cfg, old(World()), message)
    {
      hide Evm.Valid, Evm.World, Evm.Saved, PrecompilesOk, Keeps;
      errorMessage := None;
      var account := GetAccountOr(message.caller);
      if !message.delegatecall {
        errorMessage := ReduceSenderBalance(account, message);
      }
      var toAccount := GetAccountOr(message.to.value);
      if !message.delegatecall {
        var e := AddToBalance(toAccount, message.to.value, message.value);
        if e.Some? {
          errorMessage := e;
        }
      }
    }

    /** `_loadCode`, and running what it finds (evm.ts:350-414). */
    method ExecuteCode(message: Message, codeAddress: Address) returns (r: EVMResult)
      requires Valid() && message.depth <= cfg.stackLimit && message.to.Some?
      requires GetAccount(World(), message.to.value).Some? && FromTop(message.depth)
      modifies journal, stateManager, transientStorage
      ensures Valid() && Saved() == old(Saved()) && FromTop(message.depth)
      ensures var o := Spec.ExecuteCode(cfg, old(World()), message, codeAddress);
              World() == o.world && r == EVMResult(o.result, o.createdAddress)
      decreases cfg.stackLimit - message.depth, 5, 1
    {
      hide Evm.Valid, Evm.World, Evm.Saved, PrecompilesOk, Keeps;
      if message.code.None? && cfg.isPrecompile(codeAddress) {
        var p := cfg.precompile(codeAddress, message.data, message.gasLimit);
        Cleanup(message.depth);
        return EVMResult(ExecResult(p.returnValue, p.gasUsed, message.gasRefund, p.error, [], message.selfdestruct,
                                    message.created), None);
      }
      var code;
      if message.code.Some? {
        code := message.code.value;
      } else {
        code := FindCode(codeAddress);
      }
      if code == [] {
        return EVMResult(ExecResult([], 0, message.gasRefund, None, [], message.selfdestruct, message.created), None);
      }
      var result := RunInterpreter(message.(code := Some(code)), false);
      if !cfg.eip1153 {
        Idle();
      }
      Cleanup(message.depth);
      return EVMResult(result, None);
    }

    /** The first half of `_executeCreate` (evm.ts:417-505). */
    method ExecuteCreate(message: Message) returns (r: EVMResult)
      requires Valid() && Spec.MessageOk(cfg, World(), message) && message.to.None? && FromTop(message.depth)
      modifies journal, stateManager, transientStorage
      ensures Valid() && Saved() == old(Saved()) && FromTop(message.depth)
      ensures var o := Spec.ExecuteCreate(cfg, old(World()), message);
              World() == o.world && r == EVMResult(o.result, o.createdAddress)
      decreases cfg.stackLimit - message.depth, 6, 0
    {
      hide Evm.Valid, Evm.World, Evm.Saved, PrecompilesOk, Keeps, Spec.CreateAt;
      var account := GetAccountOr(message.caller);
      var _ := ReduceSenderBalance(account, message);
      if cfg.eip3860 {
        if |message.data| > cfg.maxInitCodeSize && !cfg.allowUnlimitedInitCodeSize {
          return EVMResult(ExecResult([], message.gasLimit, message.gasRefund, Some(InitcodeSizeViolation), [],
                                      message.selfdestruct, message.created), None);
        }
      }
      var msg := message.(code := Some(message.data), data := []);
      var to := GenerateAddress(msg);
      msg := msg.(to := Some(to));
      if cfg.eip6780 {
        msg := msg.(created := msg.created + {to});
      }
      var toAccount := GetAccountOr(to);
      if toAccount.nonce > 0 || toAccount.codeHash != cfg.keccak([]) || toAccount.storageRoot != cfg.keccak([0x80]) {
        return EVMResult(ExecResult([], message.gasLimit, message.gasRefund, Some(CreateCollision), [],
                                    msg.selfdestruct, msg.created), Some(to));
      }
      r := CreateAt(msg);
    }

    /** The second half (evm.ts:507-744). */
    method CreateAt(message: Message) returns (r: EVMResult)
      requires Valid() && message.depth <= cfg.stackLimit && message.to.Some? && message.code.Some?
               && FromTop(message.depth)
      modifies journal, stateManager, transientStorage
      ensures Valid() && Saved() == old(Saved()) && FromTop(message.depth)
      ensures var o := Spec.CreateAt(cfg, old(World()), message);
              World() == o.world && r == EVMResult(o.result, o.createdAddress)
      decreases cfg.stackLimit - message.depth, 5, 1
    {
      hide Evm.Valid, Evm.World, Evm.Saved, PrecompilesOk, Keeps;
      var to := message.to.value;
      var errorMessage := Endow(message);
      if message.code.value == [] || errorMessage.Some? {
        return EVMResult(ExecResult([], 0, message.gasRefund, errorMessage, [], message.selfdestruct, message.created),
                         Some(to));
      }
      var result := RunInterpreter(message, true);
      result := Deposit(message.gasLimit, result);
      Install(to, result);
      if !cfg.eip1153 {
        Idle();
      }
      Cleanup(message.depth);
      return EVMResult(result, Some(to));
    }

    method Endow(message: Message) returns (errorMessage: Option<Err>)
      requires Valid() && message.to.Some?
      modifies journal, stateManager
      ensures Valid() && Saved() == old(Saved())
      ensures (World(), errorMessage) == Spec.Endowed(cfg, old(World()), message)
    {
      hide Evm.Valid, Evm.World, Evm.Saved, PrecompilesOk, Keeps;
      var to := message.to.value;
      var toAccount := GetAccountOr(to);
      JournalPut(to, toAccount);
      toAccount := GetAccountOr(to);
      if cfg.spuriousDragon {
        toAccount := toAccount.(nonce := toAccount.nonce + 1);
      }
      errorMessage := AddToBalance(toAccount, to, message.value);
    }

    /** The fee and the checks for the code that init code returns (evm.ts:592-668). */
    method Deposit(gasLimit: nat, result0: ExecResult) returns (result: ExecResult)
      requires result0.gasUsed <= gasLimit
      ensures result == Spec.Deposited(cfg, gasLimit, result0)
    {
      result := result0;
      var totalGas, returnFee := result.gasUsed, 0;
      if result.error.None? {
        returnFee := |result.returnValue| * cfg.createDataGas;
        totalGas := totalGas + returnFee;
      }
      var allowedCodeSize := true;
      if result.error.None? && cfg.spuriousDragon && |result.returnValue| > cfg.maxCodeSize {
        allowedCodeSize := false;
      }
      if totalGas <= gasLimit && (cfg.allowUnlimitedContractSize || allowedCodeSize) {
        if cfg.eip3541 && result.returnValue != [] && result.returnValue[0] == FORMAT {
          result := result.(returnValue := [], gasUsed := gasLimit, error := Some(InvalidBytecode));
        } else {
          result := result.(gasUsed := totalGas);
        }
      } else if cfg.homestead {
        if !allowedCodeSize {
          result := result.(returnValue := [], gasUsed := gasLimit, error := Some(CodesizeExceedsMaximum));
        } else {
          result := result.(returnValue := [], gasUsed := gasLimit, error := Some(OutOfGas));
        }
      } else {
        result := result.(returnValue := [], gasUsed := totalGas - returnFee, error := Some(CodestoreOutOfGas));
      }
    }

    /** Saving the code, or an empty contract (evm.ts:691-734). */
    method Install(to: Address, result: ExecResult)
      requires Valid()
      modifies journal, stateManager
      ensures Valid() && Saved() == old(Saved())
      ensures World() == Spec.Installed(cfg, old(World()), to, result)
    {
      hide Evm.Valid, Evm.World, Evm.Saved, PrecompilesOk, Keeps;
      if result.error.None? && result.returnValue != [] {
        WriteCode(to, result.returnValue);
      } else if result.error == Some(CodestoreOutOfGas) {
        var account := GetAccountOr(to);
        JournalPut(to, account);
      }
    }

    /** `runInterpreter` (evm.ts:749-831). */
    method RunInterpreter(message: Message, isCreate: bool) returns (result: ExecResult)
      requires Valid() && message.depth <= cfg.stackLimit
      requires message.to.Some? && message.code.Some? && GetAccount(World(), message.to.value).Some?
      modifies journal, stateManager, transientStorage
      ensures Valid() && Saved() == old(Saved())
      ensures var o := Spec.RunInterpreter(cfg, old(World()), message, isCreate);
              World() == o.world && result == o.result
      decreases cfg.stackLimit - message.depth, 5, 0
    {
      hide Evm.Valid, Evm.World, Evm.Saved, PrecompilesOk, Keeps;
      ValidConfig();
      var contract := GetAccountOr(message.to.value);
      var env := Env(message.to.value, message.caller, message.value, message.data, message.code.value,
                     message.isStatic,
                     isCreate, message.depth, contract);
      var interpreter := new Interpreter(this, env, message.gasLimit, message.gasRefund, message.selfdestruct,
                                         message.created);
      var exceptionError := interpreter.Run();
      var gasUsed := message.gasLimit - interpreter.runState.gasLeft;
      var run := interpreter.result;
      if exceptionError.Some? {
        if exceptionError != Some(Reverted) {
          gasUsed := message.gasLimit;
        }
        run := run.(logs := [], selfdestruct := {}, created := {});
      }
      result := ExecResult(run.returnValue.UnwrapOr([]), gasUsed, interpreter.runState.gasRefund, exceptionError,
                           run.logs,
                           run.selfdestruct, run.created);
    }
  }

  class Interpreter {
    const evm: Evm
    var env: Env
    var runState: RunState
    var result: RunResult

    function Frame(): Frame
      reads this
    {
      EvmTypes.Frame(env, runState, result)
    }

    /** The frame is running on a coherent cache. */
    ghost predicate Ready()
      reads this, evm.stateManager, evm.journal, evm.transientStorage
    {
      evm.Valid() && Spec.FrameOk(evm.cfg, Frame(), evm.World())
    }

    /** Frame, state and trap are those of a turn. */
    ghost predicate Took(turn: Spec.Turn, trapped: Trapped)
      reads this, evm.stateManager, evm.journal, evm.transientStorage
      requires evm.Valid()
    {
      && Frame() == turn.frame && evm.World() == turn.world
      && trapped == if turn.Goes? then Running else Halted(turn.error)
    }

    constructor (evm: Evm, env: Env, gasLeft: nat, gasRefund: nat, selfdestruct: set<Address>, created: set<Address>)
      ensures this.evm == evm
      ensures Frame() == EvmTypes.Frame(env, RunState(gasLeft, gasRefund, [], Zero, []),
                                        RunResult([], None, selfdestruct, created))
    {
      this.evm, this.env := evm, env;
      runState := RunState(gasLeft, gasRefund, [], Zero, []);
      result := RunResult([], None, selfdestruct, created);
    }

    /** The loop of `run` (interpreter.ts:279-355); running off the end of the code is a `Stop`. */
    method Run() returns (err: Option<Err>)
      requires Ready()
      modifies this, evm.journal, evm.stateManager, evm.transientStorage
      ensures evm.Valid() && evm.Saved() == old(evm.Saved())
      ensures var end := Spec.RunFrom(evm.cfg, old(Frame()), old(evm.World()));
              Frame() == end.frame && evm.World() == end.world && err == end.error
      decreases evm.cfg.stackLimit - env.depth, 4, runState.gasLeft
    {
      hide Evm.Valid, Evm.World, Evm.Saved, PrecompilesOk, Keeps;
      ghost var end := Spec.RunFrom(evm.cfg, Frame(), evm.World());
      var trapped := Running;
      while trapped.Running?
        invariant evm.Valid() && evm.Saved() == old(evm.Saved())
        invariant env.depth == old(env.depth)
        invariant trapped.Running? ==> Ready() && SameEnd(Spec.RunFrom(evm.cfg, Frame(), evm.World()), end)
        invariant trapped.Halted? ==> Frame() == end.frame && evm.World() == end.world && trapped.error == end.error
        decreases runState.gasLeft + if trapped.Running? then 1 else 0
      {
        trapped := RunStep();
      }
      err := trapped.error;
    }

    /** Two ends that differ at most in what was burned. */
    static ghost predicate SameEnd(a: Spec.Turn, b: Spec.Turn) {
      a.Ends? && b.Ends? && a.frame == b.frame && a.world == b.world && a.error == b.error
    }

    /** `runStep` (interpreter.ts:362-429): pays for the operation, then runs its handler. */
    method RunStep() returns (trapped: Trapped)
      requires Ready()
      modifies this, evm.journal, evm.stateManager, evm.transientStorage
      ensures evm.Valid() && evm.Saved() == old(evm.Saved())
      ensures Took(Spec.RunStep(evm.cfg, old(Frame()), old(evm.World())), trapped)
      decreases evm.cfg.stackLimit - env.depth, 3, 0
    {
      hide Evm.Valid, Evm.World, Evm.Saved, PrecompilesOk, Keeps;
      var step := evm.cfg.handler(Frame(), evm.World());
      runState := runState.(local := step.local);
      var gas := step.fee;
      if !step.action.Halts() {
        gas := gas + 1;
      }
      if step.action.Transfers() {
        gas := gas + evm.cfg.callValueTransferGas;
      }
      trapped := UseGas(gas);
      if trapped.Halted? {
        return;
      }
      trapped := Dispatch(step.action);
    }

    /** The handler of an operation that has been paid for. */
    method Dispatch(action: Action) returns (trapped: Trapped)
      requires Ready()
      modifies this, evm.journal, evm.stateManager, evm.transientStorage
      ensures evm.Valid() && evm.Saved() == old(evm.Saved())
      ensures Took(Spec.Dispatched(evm.cfg, old(Frame()), old(evm.World()), action), trapped)
      decreases evm.cfg.stackLimit - env.depth, 2, 2
    {
      hide Evm.Valid, Evm.World, Evm.Saved, PrecompilesOk, Keeps, Spec.StartCall, Spec.Create, Spec.SelfDestruct,
        Spec.Simple;
      match action {
        case CallTo(kind, gasLimit, address, value, data) => trapped := StartCall(action);
        case CreateWith(gasLimit, value, data, salt) =>
          if gasLimit > runState.gasLeft {
            return Halted(Some(OutOfGas));
          }
          Create(gasLimit, value, data, salt);
          trapped := Running;
        case Destroy(toAddress) => trapped := SelfDestruct(toAddress);
        case _ => trapped := Perform(action);
      }
    }

    /** interpreter.ts:543-558. */
    method UseGas(amount: nat) returns (trapped: Trapped)
      modifies this`runState
      ensures old(runState).gasLeft < amount ==>
                trapped == Halted(Some(OutOfGas)) && runState == old(runState).(gasLeft := 0)
      ensures amount <= old(runState).gasLeft ==>
                trapped == Running && runState == old(runState).(gasLeft := old(runState).gasLeft - amount)
    {
      var gasLeft := runState.gasLeft - amount;
      if gasLeft < 0 {
        runState := runState.(gasLeft := 0);
        return Halted(Some(OutOfGas));
      }
      runState := runState.(gasLeft := gasLeft);
      return Running;
    }

    /** The handlers that start no other frame. */
    method Perform(action: Action) returns (trapped: Trapped)
      requires Ready() && !action.CallTo? && !action.CreateWith? && !action.Destroy?
      modifies this, evm.journal, evm.stateManager, evm.transientStorage
      ensures evm.Valid() && evm.Saved() == old(evm.Saved())
      ensures Took(Spec.Simple(evm.cfg, old(Frame()), old(evm.World()), action), trapped)
    {
      hide Evm.Valid, Evm.World, Evm.Saved, PrecompilesOk, Keeps;
      trapped := Running;
      match action {
        case Compute =>
        case AddRefund(amount) => runState := runState.(gasRefund := runState.gasRefund + amount);
        case SubRefund(amount) => trapped := SubRefund(amount);
        case SStore(key, value) => StorageStore(key, value);
        case TStore(slot, word) =>
          if !evm.cfg.eip1153 {
            return Halted(Some(InvalidOpcode));
          }
          evm.WriteTransient(env.address, slot, word);
        case TouchWarm(address) => evm.WarmAddress(address);
        case TouchWarmSlot(address, slot) => evm.WarmSlot(address, slot);
        case Emit(numberOfTopics, topics, data) => trapped := Log(data, numberOfTopics, topics);
        case Finish(data) =>
          result := result.(returnValue := Some(data));
          trapped := Halted(None);
        case RevertWith(data) =>
          result := result.(returnValue := Some(data));
          trapped := Halted(Some(Reverted));
        case Trap(code) => trapped := Halted(Some(Other(code)));
        case _ => trapped := Halted(None);
      }
    }

    /** interpreter.ts:581-594. */
    method SubRefund(amount: nat) returns (trapped: Trapped)
      modifies this`runState
      ensures if old(runState).gasRefund < amount
              then trapped == Halted(Some(RefundExhausted)) && runState == old(runState).(gasRefund := 0)
              else trapped == Running && runState == old(runState).(gasRefund := old(runState).gasRefund - amount)
    {
      var gasRefund := runState.gasRefund - amount;
      if gasRefund < 0 {
        runState := runState.(gasRefund := 0);
        return Halted(Some(RefundExhausted));
      }
      runState := runState.(gasRefund := gasRefund);
      return Running;
    }

    /** interpreter.ts:627-634; the account is there, so nothing is thrown. */
    method StorageStore(key: Bytes, value: Bytes)
      requires Ready()
      modifies this`env, evm.stateManager
      ensures Ready() && evm.Saved() == old(evm.Saved())
      ensures evm.World() == PutStorage(old(evm.World()), env.address, key, value) && env == old(env)
    {
      hide Evm.Valid, Evm.World, Evm.Saved, PrecompilesOk, Keeps;
      evm.WriteStorage(env.address, key, value);
      var account := evm.FindAccount(env.address);
      env := env.(contract := account.value);
    }

    /** interpreter.ts:1229-1240. */
    method Log(data: Bytes, numberOfTopics: int, topics: seq<Bytes>) returns (trapped: Trapped)
      modifies this`result
      ensures if 0 <= numberOfTopics <= 4 && |topics| == numberOfTopics
              then trapped == Running
                && result == old(result).(logs := old(result).logs + [LogEntry(env.address, topics, data)])
              else trapped.Halted? && result == old(result)
                   && trapped.error == Some(
                         if numberOfTopics < 0 || numberOfTopics > 4 then OutOfRange else InternalError)
    {
      if numberOfTopics < 0 || numberOfTopics > 4 {
        return Halted(Some(OutOfRange));
      }
      if |topics| != numberOfTopics {
        return Halted(Some(InternalError));
      }
      result := result.(logs := result.logs + [LogEntry(env.address, topics, data)]);
      return Running;
    }

    /** The call handlers (functions.ts:1433-1460). */
    method StartCall(action: Action) returns (trapped: Trapped)
      requires Ready() && action.CallTo?
      modifies this, evm.journal, evm.stateManager, evm.transientStorage
      ensures evm.Valid() && evm.Saved() == old(evm.Saved())
      ensures Took(Spec.StartCall(evm.cfg, old(Frame()), old(evm.World()), action), trapped)
      decreases evm.cfg.stackLimit - env.depth, 2, 1
    {
      hide Evm.Valid, Evm.World, Evm.Saved, PrecompilesOk, Keeps, Spec.BaseCall, Spec.RunCall;
      if action.gas > runState.gasLeft {
        return Halted(Some(OutOfGas));
      }
      var gasLimit := action.gas;
      if action.Transfers() {
        runState := runState.(gasLeft := runState.gasLeft + evm.cfg.callStipendGas);
        gasLimit := gasLimit + evm.cfg.callStipendGas;
      }
      var msg;
      match action.kind {
        case Call =>
          msg := Message(env.address, Some(action.address), None, gasLimit, action.amount, action.data, None,
                         env.depth + 1,
                         env.isStatic, None, false, {}, {}, 0);
        case CallCode =>
          msg := Message(env.address, Some(env.address), Some(action.address), gasLimit, action.amount, action.data,
                         None,
                         env.depth + 1, env.isStatic, None, false, {}, {}, 0);
        case StaticCall =>
          msg := Message(env.address, Some(action.address), None, gasLimit, action.amount, action.data, None,
                         env.depth + 1,
                         true, None, false, {}, {}, 0);
        case DelegateCall =>
          msg := Message(env.caller, Some(env.address), Some(action.address), gasLimit, action.amount, action.data,
                         None,
                         env.depth + 1, env.isStatic, None, true, {}, {}, 0);
      }
      BaseCall(msg);
      return Running;
    }

    /** `_baseCall` (interpreter.ts:972-1034). */
    method BaseCall(msg0: Message)
      requires Ready() && msg0.depth == env.depth + 1 && msg0.gasLimit <= runState.gasLeft
      requires msg0.to.Some? && (msg0.delegatecall ==> msg0.to.value == env.address)
      modifies this, evm.journal, evm.stateManager, evm.transientStorage
      ensures evm.Valid() && evm.Saved() == old(evm.Saved())
      ensures Took(Spec.BaseCall(evm.cfg, old(Frame()), old(evm.World()), msg0), Running)
      decreases evm.cfg.stackLimit - env.depth, 2, 0
    {
      hide Evm.Valid, Evm.World, Evm.Saved, PrecompilesOk, Keeps, Spec.RunCall, Spec.Resumed;
      ghost var f, w := Frame(), evm.World();
      var msg := msg0.(selfdestruct := result.selfdestruct, gasRefund := runState.gasRefund,
                       created := if evm.cfg.eip6780 then result.created else {});
      runState := runState.(returnBytes := [], returned := Zero);
      if env.depth >= evm.cfg.stackLimit || (!msg.delegatecall && env.contract.balance < msg.value) {
        return;
      }
      var results := evm.RunCall(msg);
      var ok := results.execResult.error.None?;
      Resume(f, w, Spec.RunCall(evm.cfg, w, msg), results.execResult, ok,
             ok || results.execResult.error == Some(Reverted), if ok then One else Zero);
    }

    /** The frame after a message has come back (interpreter.ts:998-1033, 1100-1141): `useGas` never traps
        here, because the message has used no more than it was given. */
    method Resume(ghost f: Frame, ghost w: World, ghost o: Spec.Outcome, r: ExecResult, merged: bool, returning: bool,
                  returned: Returned)
      requires evm.Valid() && evm.World() == o.world && r == o.result && r.gasUsed <= runState.gasLeft
      requires Keeps(w, o.world) && GetAccount(w, env.address).Some?
      requires Frame() == f.(run := f.run.(returnBytes := [], returned := Zero))
      modifies this
      ensures merged ==> GetAccount(o.world, f.env.address).Some?
      ensures Frame() == Spec.Resumed(evm.cfg, f, o, merged, returning, returned)
    {
      hide Evm.Valid, Evm.World, Evm.Saved, Keeps;
      AccountKept(w, o.world, env.address);
      result := result.(logs := result.logs + r.logs);
      var trapped := UseGas(r.gasUsed);
      assert trapped.Running?;
      if returning {
        runState := runState.(returnBytes := r.returnValue);
      }
      if merged {
        Merge(r);
      }
      runState := runState.(returned := returned);
    }

    /** Taking over the sets, the account and the refund of a message that went well. */
    method Merge(r: ExecResult)
      requires evm.Valid() && GetAccount(evm.World(), env.address).Some?
      modifies this
      ensures result == old(result).(selfdestruct := old(result).selfdestruct + r.selfdestruct,
                                     created := if evm.cfg.eip6780 then old(result).created + r.created
                                       else old(result).created)
      ensures env == old(env).(contract := GetAccount(evm.World(), old(env).address).value)
      ensures runState == old(runState).(gasRefund := r.gasRefund)
    {
      hide Evm.Valid, Evm.World, Evm.Saved, PrecompilesOk, Keeps;
      result := result.(selfdestruct := result.selfdestruct + r.selfdestruct);
      if evm.cfg.eip6780 {
        result := result.(created := result.created + r.created);
      }
      var account := evm.FindAccount(env.address);
      env := env.(contract := account.value);
      runState := runState.(gasRefund := r.gasRefund);
    }

    /** `create` (interpreter.ts:1039-1142). */
    method Create(gasLimit: nat, value: nat, codeToRun: Bytes, salt: Option<Bytes>)
      requires Ready() && gasLimit <= runState.gasLeft
      modifies this, evm.journal, evm.stateManager, evm.transientStorage
      ensures evm.Valid() && evm.Saved() == old(evm.Saved())
      ensures Took(Spec.Create(evm.cfg, old(Frame()), old(evm.World()), gasLimit, value, codeToRun, salt), Running)
      decreases evm.cfg.stackLimit - env.depth, 2, 0
    {
      hide Evm.Valid, Evm.World, Evm.Saved, PrecompilesOk, Keeps, Spec.CreateRun, Spec.RunCall, PutAccount;
      if env.depth >= evm.cfg.stackLimit || env.contract.balance < value {
        runState := runState.(returnBytes := [], returned := Zero);
        return;
      }
      if env.contract.nonce >= MAX_UINT64 {
        runState := runState.(returnBytes := [], returned := Zero);
        return;
      }
      env := env.(contract := env.contract.(nonce := env.contract.nonce + 1));
      evm.JournalPut(env.address, env.contract);
      if evm.cfg.eip3860 {
        if |codeToRun| > evm.cfg.maxInitCodeSize && !evm.cfg.allowUnlimitedInitCodeSize {
          runState := runState.(returnBytes := [], returned := Zero);
          return;
        }
      }
      CreateRun(gasLimit, value, codeToRun, salt);
    }

    /** Sending the message of a create, and taking its result. */
    method CreateRun(gasLimit: nat, value: nat, codeToRun: Bytes, salt: Option<Bytes>)
      requires Ready() && gasLimit <= runState.gasLeft && env.depth < evm.cfg.stackLimit
               && value <= env.contract.balance
      modifies this, evm.journal, evm.stateManager, evm.transientStorage
      ensures evm.Valid() && evm.Saved() == old(evm.Saved())
      ensures Took(Spec.CreateRun(evm.cfg, old(Frame()), old(evm.World()), gasLimit, value, codeToRun, salt), Running)
      decreases evm.cfg.stackLimit - env.depth, 1, 0
    {
      hide Evm.Valid, Evm.World, Evm.Saved, PrecompilesOk, Keeps, Spec.RunCall, Spec.Resumed;
      ghost var f, w := Frame(), evm.World();
      var message := Message(env.address, None, None, gasLimit, value, codeToRun, None, env.depth + 1, false, salt,
                             false,
                             result.selfdestruct, if evm.cfg.eip6780 then result.created else {}, runState.gasRefund);
      runState := runState.(returnBytes := [], returned := Zero);
      var results := evm.RunCall(message);
      var error := results.execResult.error;
      var merged := error.None? || error == Some(CodestoreOutOfGas);
      var returned := if error.None? then One else Zero;
      if merged && results.createdAddress.Some? {
        returned := Created(results.createdAddress.value);
      }
      Resume(f, w, Spec.RunCall(evm.cfg, w, message), results.execResult, merged, error == Some(Reverted), returned);
    }

    /** `_selfDestruct` (interpreter.ts:1181-1224). */
    method SelfDestruct(toAddress: Address) returns (trapped: Trapped)
      requires Ready()
      modifies this, evm.journal, evm.stateManager, evm.transientStorage
      ensures evm.Valid() && evm.Saved() == old(evm.Saved())
      ensures Took(Spec.SelfDestruct(evm.cfg, old(Frame()), old(evm.World()), toAddress), trapped)
    {
      hide Evm.Valid, Evm.World, Evm.Saved, PrecompilesOk, Keeps, PutAccount, SetAccount, AccountOr;
      if env.address !in result.selfdestruct {
        runState := runState.(gasRefund := runState.gasRefund + evm.cfg.selfdestructRefundGas);
      }
      result := result.(selfdestruct := result.selfdestruct + {env.address});
      var toSelf := toAddress == env.address;
      if !toSelf {
        var toAccount := evm.GetAccountOr(toAddress);
        evm.JournalPut(toAddress, toAccount.(balance := toAccount.balance + env.contract.balance));
      }
      var doModify := !evm.cfg.eip6780;
      if !doModify {
        doModify := env.address in result.created;
        if !doModify {
          doModify := !toSelf;
        }
      }
      if doModify {
        evm.EmptyAccount(env.address);
      }
      return Halted(None);
    }
  }
}
