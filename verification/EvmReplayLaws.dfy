/** What the replay of a call tree means for its results and for the state: which logs, refunds, destroyed and
    created contracts a message reports, what is in storage, what code is deployed, what a caller sees. */
module EvmReplayLaws {
  import opened Wrappers
  import opened JournalLog
  import opened EvmTypes
  import opened EvmSpec
  import opened EvmStory
  import opened EvmReplay
  import opened EvmLaws

  // ---------------------------------------------------------------------------------------
  // What is gathered
  // ---------------------------------------------------------------------------------------

  function LogsIn(deeds: seq<Deed>): seq<LogEntry> {
    if deeds == [] then [] else LogsIn(deeds[..|deeds| - 1]) + LogOf(deeds[|deeds| - 1])
  }

  function DestroyedIn(deeds: seq<Deed>): set<Address> {
    set deed | deed in deeds && Destroys(deed) :: deed.at
  }

  function BegunIn(deeds: seq<Deed>): set<Address> {
    set deed | deed in deeds && deed.Began? :: deed.address
  }

  function RefundsIn(deeds: seq<Deed>): int {
    if deeds == [] then 0 else RefundsIn(deeds[..|deeds| - 1]) + RefundOf(deeds[|deeds| - 1])
  }

  /** One refund for every contract that had not been destroyed before. */
  function DestroyRefund(cfg: Config, had: set<Address>, destroyed: set<Address>): nat {
    |destroyed - had| * cfg.selfdestructRefundGas
  }

  /** All logs in order; every destroyed contract once, with one refund each; every contract begun. */
  predicate Gathered(cfg: Config, l: Ledger, deeds: seq<Deed>, end: Ledger) {
    && end.logs == l.logs + LogsIn(deeds)
    && end.destroyed == l.destroyed + DestroyedIn(deeds)
    && end.created == (if cfg.eip6780 then l.created + BegunIn(deeds) else l.created)
    && end.refund == l.refund + RefundsIn(deeds) + DestroyRefund(cfg, l.destroyed, DestroyedIn(deeds))
  }

  lemma {:induction false} ReplayLast(cfg: Config, l: Ledger, deeds: seq<Deed>)
    requires deeds != []
    ensures Replay(cfg, l, deeds) == Apply(cfg, Replay(cfg, l, deeds[..|deeds| - 1]), deeds[|deeds| - 1])
  {
    var before, last := deeds[..|deeds| - 1], deeds[|deeds| - 1];
    assert deeds == before + [last];
    ReplayBoth(cfg, l, before, [last]);
    ReplayOne(cfg, Replay(cfg, l, before), last);
  }

  lemma {:induction false} OneDeedMore(before: seq<Deed>, last: Deed)
    ensures LogsIn(before + [last]) == LogsIn(before) + LogOf(last)
    ensures RefundsIn(before + [last]) == RefundsIn(before) + RefundOf(last)
    ensures DestroyedIn(before + [last]) == DestroyedIn(before) + if Destroys(last) then {last.at} else {}
    ensures BegunIn(before + [last]) == BegunIn(before) + if last.Began? then {last.address} else {}
  {
    var deeds := before + [last];
    assert deeds[..|deeds| - 1] == before;
    hide LogOf, RefundOf, Destroys;
  }

  lemma {:induction false} OneRefundMore(cfg: Config, had: set<Address>, destroyed: set<Address>, a: Address)
    ensures DestroyRefund(cfg, had, destroyed + {a}) ==
            DestroyRefund(cfg, had, destroyed) + if a in had + destroyed then 0 else cfg.selfdestructRefundGas
  {
    if a in had + destroyed {
      assert destroyed + {a} - had == destroyed - had;
    } else {
      assert destroyed + {a} - had == (destroyed - had) + {a};
    }
  }

  lemma {:induction false} GathersOneMore(cfg: Config, l: Ledger, before: seq<Deed>, last: Deed, mid: Ledger)
    requires Gathered(cfg, l, before, mid)
    ensures Gathered(cfg, l, before + [last], Apply(cfg, mid, last))
  {
    hide Apply, Replay, DestroyedIn, BegunIn, LogsIn, RefundsIn, LogOf, RefundOf, DestroyRefund;
    DeedGathers(cfg, mid, last);
    OneDeedMore(before, last);
    assert l.logs + LogsIn(before) + LogOf(last) == l.logs + (LogsIn(before) + LogOf(last));
    if Destroys(last) {
      OneRefundMore(cfg, l.destroyed, DestroyedIn(before), last.at);
    } else {
      assert DestroyedIn(before) + {} == DestroyedIn(before);
    }
  }

  lemma {:induction false} ReplayGathersAll(cfg: Config, l: Ledger, deeds: seq<Deed>)
    ensures Gathered(cfg, l, deeds, Replay(cfg, l, deeds))
    decreases |deeds|
  {
    hide Apply;
    if deeds != [] {
      var before, last := deeds[..|deeds| - 1], deeds[|deeds| - 1];
      assert deeds == before + [last];
      ReplayGathersAll(cfg, l, before);
      ReplayLast(cfg, l, deeds);
      hide Replay, Gathered;
      GathersOneMore(cfg, l, before, last, Replay(cfg, l, before));
    }
  }

  /** What a message that is kept reports. */
  lemma {:induction false} MessageGathers(cfg: Config, w: World, msg: Message)
    requires MessageOk(cfg, w, msg) && !RollsBack(cfg, RunCall(cfg, w, msg).result.error)
    ensures var r, deeds := RunCall(cfg, w, msg).result, MessageStory(cfg, w, msg).deeds;
            && r.logs == LogsIn(deeds)
            && r.selfdestruct == msg.selfdestruct + DestroyedIn(deeds)
            && r.created == (if cfg.eip6780 then msg.created + BegunIn(deeds) else msg.created)
            && r.gasRefund == msg.gasRefund + RefundsIn(deeds)
                 + DestroyRefund(cfg, msg.selfdestruct, DestroyedIn(deeds))
  {
    hide PrecompilesOk, Keeps, RunCall, MessageStory, Apply, Replay;
    MessageAsTold(cfg, w, msg);
    ReplayGathersAll(cfg, MessageLedger(w, msg), MessageStory(cfg, w, msg).deeds);
    assert [] + LogsIn(MessageStory(cfg, w, msg).deeds) == LogsIn(MessageStory(cfg, w, msg).deeds);
  }

  // ---------------------------------------------------------------------------------------
  // Storage
  // ---------------------------------------------------------------------------------------

  /** The last value written to a slot. */
  function LastStored(deeds: seq<Deed>, a: Address, key: Bytes): Option<Bytes> {
    if deeds == [] then None
    else
      var last := deeds[|deeds| - 1];
      if last.Did? && last.at == a && last.action.SStore? && last.action.key == key then Some(last.action.value)
      else LastStored(deeds[..|deeds| - 1], a, key)
  }

  function LastTransient(deeds: seq<Deed>, a: Address, key: Bytes): Option<Bytes> {
    if deeds == [] then None
    else
      var last := deeds[|deeds| - 1];
      if last.Did? && last.at == a && last.action.TStore? && last.action.slot == key then Some(last.action.word)
      else LastTransient(deeds[..|deeds| - 1], a, key)
  }

  function Stored(m: map<(Address, Bytes), Bytes>, a: Address, key: Bytes): Option<Bytes> {
    if (a, key) in m then Some(m[(a, key)]) else None
  }

  /** A slot of transient storage that has not been written holds 32 zero bytes. */
  function Held(m: map<(Address, Bytes), Bytes>, a: Address, key: Bytes): Bytes {
    if (a, key) in m then m[(a, key)] else ZERO_WORD
  }

  lemma {:induction false} ReplayStores(cfg: Config, l: Ledger, deeds: seq<Deed>, a: Address, key: Bytes)
    ensures var end := Replay(cfg, l, deeds);
            && Stored(end.storage, a, key) ==
               (if LastStored(deeds, a, key).Some? then LastStored(deeds, a, key) else Stored(l.storage, a, key))
            && Held(end.transient, a, key) == LastTransient(deeds, a, key).UnwrapOr(Held(l.transient, a, key))
    decreases |deeds|
  {
    if deeds != [] {
      ReplayStores(cfg, l, deeds[..|deeds| - 1], a, key);
      ReplayLast(cfg, l, deeds);
      hide Replay;
      StoresOneMore(cfg, Replay(cfg, l, deeds[..|deeds| - 1]), deeds[|deeds| - 1], a, key);
    }
  }

  ghost predicate StoresDeed(l: Ledger, deed: Deed, end: Ledger, a: Address, key: Bytes) {
    && Stored(end.storage, a, key) ==
       (if deed.Did? && deed.at == a && deed.action.SStore? && deed.action.key == key then Some(deed.action.value)
        else Stored(l.storage, a, key))
    && Held(end.transient, a, key) ==
       (if deed.Did? && deed.at == a && deed.action.TStore? && deed.action.slot == key then deed.action.word
        else Held(l.transient, a, key))
  }

  lemma {:induction false} StoresOneMore(cfg: Config, l: Ledger, deed: Deed, a: Address, key: Bytes)
    ensures StoresDeed(l, deed, Apply(cfg, l, deed), a, key)
  {
    hide Done, WithNonce, WithPayment, WithCode, Touching;
    if deed.Did? {
      DoneStores(cfg, l, deed.at, deed.action, a, key);
    }
  }

  lemma {:induction false} DoneStores(cfg: Config, l: Ledger, at: Address, action: Action, a: Address, key: Bytes)
    ensures StoresDeed(l, Did(at, action), Done(cfg, l, at, action), a, key)
  {
    hide WithSweep, Touching, SlotsOf;
    if action.SStore? {
    } else if action.TStore? {
    } else {
    }
  }

  /** After a message every slot holds what was last written to it by a frame that has not been rolled back, or
      what it held before. */
  lemma {:induction false} MessageStores(cfg: Config, w: World, msg: Message, a: Address, key: Bytes)
    requires MessageOk(cfg, w, msg)
    ensures var o, deeds := RunCall(cfg, w, msg), MessageStory(cfg, w, msg).deeds;
            && Stored(o.world.storage, a, key) ==
               (if LastStored(deeds, a, key).Some? then LastStored(deeds, a, key) else Stored(w.storage, a, key))
            && (!o.cleared ==>
                  Held(o.world.transient, a, key) == LastTransient(deeds, a, key).UnwrapOr(Held(w.transient, a, key)))
  {
    hide PrecompilesOk, Keeps, RunCall, MessageStory, Apply, Replay;
    MessageAsTold(cfg, w, msg);
    var deeds := MessageStory(cfg, w, msg).deeds;
    ReplayStores(cfg, MessageLedger(w, msg), deeds, a, key);
    ReplayStores(cfg, LedgerOf(w, [], {}, {}, 0), deeds, a, key);
  }

  // ---------------------------------------------------------------------------------------
  // What a caller sees
  // ---------------------------------------------------------------------------------------

  /** After a call: one or zero, the data of a message that ended well or was reverted, and the gas it has used. */
  lemma {:induction false} CallReturns(cfg: Config, f: Frame, w: World, msg: Message)
    requires FrameOk(cfg, f, w) && msg.depth == f.env.depth + 1 && msg.gasLimit <= f.run.gasLeft
    requires msg.to.Some? && (msg.delegatecall ==> msg.to.value == f.env.address)
    requires f.env.depth < cfg.stackLimit && (msg.delegatecall || msg.value <= f.env.contract.balance)
    ensures var run, s := BaseCall(cfg, f, w, msg).frame.run, MessageStory(cfg, w, Sent(cfg, f, msg));
            && run.returned == (if s.fate == Ended(None) then One else Zero)
            && run.returnBytes == (if s.fate in {Ended(None), Ended(Some(Reverted))} then s.output else [])
            && run.gasLeft == f.run.gasLeft - s.gas && run.local == f.run.local
  {
    hide PrecompilesOk, Keeps, RunCall, MessageStory;
    MessageAsTold(cfg, w, Sent(cfg, f, msg));
  }

  /** Whose code runs, in whose name, with whose storage and ether: a plain or static call enters the called
      account; CALLCODE and DELEGATECALL stay in the calling one and only borrow code, and DELEGATECALL also passes
      on its caller. What was static stays so. */
  lemma {:induction false} CalleeSees(cfg: Config, f: Frame, w: World, kind: CallKind, gas: nat, address: Address,
                                      amount: nat, data: Bytes)
    ensures var msg := Sent(cfg, f, CallMessage(f, kind, gas, address, amount, data));
            && msg.to.Some? && msg.code.None? && msg.codeAddress.UnwrapOr(msg.to.value) == address
            && (msg.delegatecall <==> kind == DelegateCall)
            && var env := FirstFrame(cfg, w, msg.(code := Some(GetCode(w, address))), false).env;
            && env.address == (if kind in {Call, StaticCall} then address else f.env.address)
            && env.caller == (if kind == DelegateCall then f.env.caller else f.env.address)
            && env.callValue == amount && env.callData == data && env.code == GetCode(w, address)
            && (env.isStatic <==> f.env.isStatic || kind == StaticCall)
            && !env.isCreate && env.depth == f.env.depth + 1
  {}

  /** The whole balance of a destroyed contract goes to the beneficiary. In its own favour it is lost, or kept if
      EIP-6780 is on and the transaction has not created the contract. Nobody else's account changes. */
  lemma {:induction false} SelfDestructMoves(cfg: Config, f: Frame, w: World, to: Address, other: Address)
    requires FrameOk(cfg, f, w)
    ensures var w', self := SelfDestruct(cfg, f, w, to).world, f.env.address;
            && (to != self ==> Balance(w', to) == Balance(w, to) + Balance(w, self) && Balance(w', self) == 0)
            && (to == self ==>
                  Balance(w', self) == if cfg.eip6780 && self !in f.result.created then Balance(w, self) else 0)
            && (other != self && other != to ==> GetAccount(w', other) == GetAccount(w, other))
  {
    hide PrecompilesOk, Keeps;
  }

  // ---------------------------------------------------------------------------------------
  // Contracts
  // ---------------------------------------------------------------------------------------

  /** Wherever a create ends without an error, the contract is at its address, with the very code that the init
      code returned. */
  lemma {:induction false} CreateDeploys(cfg: Config, w: World, msg: Message)
    requires MessageOk(cfg, w, msg) && msg.to.None?
    requires RunCall(cfg, w, msg).result.error.None? && RunCall(cfg, w, msg).result.returnValue != []
    ensures var o := RunCall(cfg, w, msg);
            && o.createdAddress.Some?
            && var a := o.createdAddress.value;
            && GetCode(o.world, a) == o.result.returnValue
            && GetAccount(o.world, a).Some?
            && GetAccount(o.world, a).value.codeHash == cfg.keccak(o.result.returnValue)
  {
    hide PrecompilesOk, Keeps, CreateAt;
    var (w1, msg1) := WarmCreated(cfg, CountTransaction(cfg, w, msg), msg);
    var w2 := Debited(cfg, w1, msg1).0;
    var msg2 := msg1.(code := Some(msg1.data), data := []);
    var to := AddressFor(cfg, w2, msg2);
    var msg3 := msg2.(to := Some(to), created := if cfg.eip6780 then msg2.created + {to} else msg2.created);
    assert RunCall(cfg, w, msg).world == CreateAt(cfg, w2, msg3).world;
    CreateAtDeploys(cfg, w2, msg3);
  }

  lemma {:induction false} CreateAtDeploys(cfg: Config, w: World, msg: Message)
    requires GoodConfig(cfg) && msg.depth <= cfg.stackLimit && msg.to.Some? && msg.code.Some?
    requires CreateAt(cfg, w, msg).result.error.None? && CreateAt(cfg, w, msg).result.returnValue != []
    ensures var o := CreateAt(cfg, w, msg);
            && o.createdAddress == msg.to && GetCode(o.world, msg.to.value) == o.result.returnValue
            && GetAccount(o.world, msg.to.value).Some?
            && GetAccount(o.world, msg.to.value).value.codeHash == cfg.keccak(o.result.returnValue)
  {
    hide PrecompilesOk, Keeps, RunInterpreter, Deposited, Endowed;
  }

  function Nonce(cfg: Config, w: World, a: Address): nat {
    AccountOr(cfg, w, a).nonce
  }

  /** Where a contract goes: the address of a create belongs to the nonce its creator had before it was counted for
      this create, and that of a create with a salt to the salt and the init code. */
  lemma {:induction false} TransactionCreatesAt(cfg: Config, w: World, msg: Message)
    requires MessageOk(cfg, w, msg) && msg.to.None? && msg.depth == 0
    ensures var o := RunCall(cfg, w, msg);
            var a := if msg.salt.Some? then cfg.generateAddress2(msg.caller, msg.salt.value, msg.data)
                     else cfg.generateAddress(msg.caller, Nonce(cfg, w, msg.caller));
            && (o.createdAddress.Some? ==> o.createdAddress == Some(a))
            && (o.createdAddress.None? ==> o.result.error == Some(InitcodeSizeViolation))
            && (cfg.eip2929 && RollsBack(cfg, o.result.error) ==> a in o.world.warm)
  {
    hide PrecompilesOk, Keeps, CreateAt;
    var w0 := CountTransaction(cfg, w, msg);
    var (w1, msg1) := WarmCreated(cfg, w0, msg);
    ExecutesAt(cfg, w1, msg1);
  }

  lemma {:induction false} ExecutesAt(cfg: Config, w: World, msg: Message)
    requires MessageOk(cfg, w, msg) && msg.to.None?
    ensures var o := ExecuteCreate(cfg, w, msg);
            && (o.createdAddress.Some? ==> o.createdAddress == Some(AddressFor(cfg, w, msg.(code := Some(msg.data)))))
            && (o.createdAddress.None? ==> o.result.error == Some(InitcodeSizeViolation))
  {
    hide PrecompilesOk, Keeps, RunInterpreter, Deposited, Endowed, Installed;
  }

  lemma {:induction false} NestedCreatesAt(cfg: Config, w: World, msg: Message)
    requires MessageOk(cfg, w, msg) && msg.to.None? && msg.depth > 0 && RunCall(cfg, w, msg).createdAddress.Some?
    ensures RunCall(cfg, w, msg).createdAddress.value ==
            if msg.salt.Some? then cfg.generateAddress2(msg.caller, msg.salt.value, msg.data)
            else cfg.generateAddress(msg.caller, Nonce(cfg, w, msg.caller) - 1)
  {
    hide PrecompilesOk, Keeps, ExecuteCreate;
    var (w1, msg1) := WarmCreated(cfg, w, msg);
    ExecutesAt(cfg, w1, msg1);
  }

  lemma {:induction false} FrameCreatesAt(cfg: Config, f: Frame, w: World, gas: nat, value: nat, code: Bytes,
                                          salt: Option<Bytes>)
    requires FrameOk(cfg, f, w) && gas <= f.run.gasLeft
    requires Create(cfg, f, w, gas, value, code, salt).frame.run.returned.Created?
    ensures Create(cfg, f, w, gas, value, code, salt).frame.run.returned ==
            Created(if salt.Some? then cfg.generateAddress2(f.env.address, salt.value, code)
                    else cfg.generateAddress(f.env.address, f.env.contract.nonce))
  {
    hide PrecompilesOk, Keeps, CreateRun;
    var contract := f.env.contract.(nonce := f.env.contract.nonce + 1);
    var w1 := PutAccount(w, f.env.address, contract);
    var f1 := f.(env := f.env.(contract := contract));
    RunCreatesAt(cfg, f1, w1, gas, value, code, salt);
  }

  lemma {:induction false} RunCreatesAt(cfg: Config, f: Frame, w: World, gas: nat, value: nat, code: Bytes,
                                        salt: Option<Bytes>)
    requires FrameOk(cfg, f, w) && gas <= f.run.gasLeft && f.env.depth < cfg.stackLimit
             && value <= f.env.contract.balance
    requires CreateRun(cfg, f, w, gas, value, code, salt).frame.run.returned.Created?
    ensures CreateRun(cfg, f, w, gas, value, code, salt).frame.run.returned ==
            Created(if salt.Some? then cfg.generateAddress2(f.env.address, salt.value, code)
                    else cfg.generateAddress(f.env.address, f.env.contract.nonce - 1))
  {
    hide PrecompilesOk, Keeps, RunCall;
    var msg := Sent(cfg, f, Message(f.env.address, None, None, gas, value, code, None, f.env.depth + 1, false, salt,
                                    false, {}, {}, 0));
    assert MessageOk(cfg, w, msg);
    NestedCreatesAt(cfg, w, msg);
  }
}
