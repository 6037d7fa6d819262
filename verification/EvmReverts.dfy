/** What becomes of init code that fails by itself. The check for code in the reserved format (EIP-3541) is made
    on whatever init code returns (evm.ts:615-618), so it also hits the data of a revert. */
module EvmReverts {
  import opened Wrappers
  import opened EvmTypes
  import opened EvmSpec

  /** Return data that looks like code in the reserved format. */
  predicate Reserved(cfg: Config, r: ExecResult) {
    cfg.eip3541 && r.returnValue != [] && r.returnValue[0] == FORMAT
  }

  /** A result with an error is kept as it is, gas and data, exactly when its data does not look like that. If it
      does, all gas is used, the data is dropped and the error is another one. */
  lemma {:induction false} DepositAfterError(cfg: Config, gasLimit: nat, r: ExecResult)
    requires r.gasUsed <= gasLimit && r.error.Some?
    ensures Deposited(cfg, gasLimit, r) == r <==> !Reserved(cfg, r)
    ensures Reserved(cfg, r) ==>
              Deposited(cfg, gasLimit, r) == r.(returnValue := [], gasUsed := gasLimit, error := Some(InvalidBytecode))
  {
    assert Reserved(cfg, r) ==> Deposited(cfg, gasLimit, r).returnValue != r.returnValue;
  }

  /** The result of the init code of a create, if it is run at all. */
  ghost function InitCode(cfg: Config, w: World, msg: Message): (r: Option<ExecResult>)
    requires MessageOk(cfg, w, msg) && msg.to.None?
    ensures r.Some? ==> r.value.gasUsed <= msg.gasLimit
  {
    hide PrecompilesOk;
    var w1 := Debited(cfg, w, msg).0;
    var msg1 := msg.(code := Some(msg.data), data := []);
    var to := AddressFor(cfg, w1, msg1);
    var msg2 := msg1.(to := Some(to), created := if cfg.eip6780 then msg.created + {to} else msg.created);
    var (w2, error) := Endowed(cfg, w1, msg2);
    if (cfg.eip3860 && |msg.data| > cfg.maxInitCodeSize && !cfg.allowUnlimitedInitCodeSize)
       || Collides(cfg, AccountOr(cfg, w1, to)) || msg.data == [] || error.Some? then None
    else Some(RunInterpreter(cfg, w2, msg2, true).result)
  }

  /** What a create reports is that result after the deposit. */
  lemma {:induction false} CreateReports(cfg: Config, w: World, msg: Message)
    requires MessageOk(cfg, w, msg) && msg.to.None? && InitCode(cfg, w, msg).Some?
    ensures ExecuteCreate(cfg, w, msg).result == Deposited(cfg, msg.gasLimit, InitCode(cfg, w, msg).value)
  {
    hide PrecompilesOk, Keeps, RunInterpreter, Deposited, Endowed, Debited;
  }

  /** The message of a create as it is executed: counted, if it is a transaction, and its address warm. */
  ghost function InitCodeOf(cfg: Config, w: World, msg: Message): Option<ExecResult>
    requires MessageOk(cfg, w, msg) && msg.to.None?
  {
    var (w1, msg1) := WarmCreated(cfg, CountTransaction(cfg, w, msg), msg);
    InitCode(cfg, w1, msg1)
  }

  /** The message a frame sends for a create. */
  function CreateMessage(cfg: Config, f: Frame, gas: nat, value: nat, code: Bytes, salt: Option<Bytes>): Message {
    Message(f.env.address, None, None, gas, value, code, None, f.env.depth + 1, false, salt, false,
            f.result.selfdestruct, if cfg.eip6780 then f.result.created else {}, f.run.gasRefund)
  }

  /** Init code that reverts: the frame that creates gets the unused gas and the data back exactly when the data
      does not look like code in the reserved format; else it has lost all gas it passed on, and gets no data. */
  lemma {:induction false} RevertedCreate(cfg: Config, f: Frame, w: World, gas: nat, value: nat, code: Bytes,
                                          salt: Option<Bytes>)
    requires FrameOk(cfg, f, w) && gas <= f.run.gasLeft && f.env.depth < cfg.stackLimit
             && value <= f.env.contract.balance
    requires var r := InitCodeOf(cfg, w, CreateMessage(cfg, f, gas, value, code, salt));
             r.Some? && r.value.error == Some(Reverted)
    ensures var r := InitCodeOf(cfg, w, CreateMessage(cfg, f, gas, value, code, salt)).value;
            var f' := CreateRun(cfg, f, w, gas, value, code, salt).frame;
            && r.gasUsed <= gas
            && f' == f.(run := f.run.(gasLeft := f.run.gasLeft - if Reserved(cfg, r) then gas else r.gasUsed,
                                      returnBytes := if Reserved(cfg, r) then [] else r.returnValue,
                                      returned := Zero))
  {
    var msg := CreateMessage(cfg, f, gas, value, code, salt);
    var r := InitCodeOf(cfg, w, msg).value;
    ReportOfRevert(cfg, w, msg);
    DepositAfterError(cfg, gas, r);
    hide PrecompilesOk, Keeps, RunCall, CreateRun, InitCodeOf, Deposited, Coherent;
    FailedCreateFrame(cfg, f, w, gas, value, code, salt);
  }

  /** The frame after a create that has failed. */
  lemma {:induction false} FailedCreateFrame(cfg: Config, f: Frame, w: World, gas: nat, value: nat, code: Bytes,
                                             salt: Option<Bytes>)
    requires FrameOk(cfg, f, w) && gas <= f.run.gasLeft && f.env.depth < cfg.stackLimit
             && value <= f.env.contract.balance
    requires var r := RunCall(cfg, w, CreateMessage(cfg, f, gas, value, code, salt)).result;
             r.error.Some? && r.error != Some(CodestoreOutOfGas) && r.logs == []
    ensures var r := RunCall(cfg, w, CreateMessage(cfg, f, gas, value, code, salt)).result;
            CreateRun(cfg, f, w, gas, value, code, salt).frame ==
            f.(run := f.run.(gasLeft := f.run.gasLeft - r.gasUsed, returned := Zero,
                             returnBytes := if r.error == Some(Reverted) then r.returnValue else []))
  {
    hide PrecompilesOk, Keeps, RunCall, Coherent;
    assert f.result.logs + [] == f.result.logs;
  }

  /** The result that comes back for it. */
  lemma {:induction false} ReportOfRevert(cfg: Config, w: World, msg: Message)
    requires MessageOk(cfg, w, msg) && msg.to.None? && msg.depth > 0
    requires InitCodeOf(cfg, w, msg).Some? && InitCodeOf(cfg, w, msg).value.error == Some(Reverted)
    ensures var r := InitCodeOf(cfg, w, msg).value;
            && r.gasUsed <= msg.gasLimit
            && var r' := Deposited(cfg, msg.gasLimit, r);
            RunCall(cfg, w, msg).result == r'.(selfdestruct := {}, created := {}, gasRefund := 0, logs := [])
  {
    hide PrecompilesOk, Keeps, ExecuteCreate, InitCode, Deposited;
    var (w1, msg1) := WarmCreated(cfg, CountTransaction(cfg, w, msg), msg);
    CreateReports(cfg, w1, msg1);
    DepositAfterError(cfg, msg.gasLimit, InitCode(cfg, w1, msg1).value);
  }

  /** Such init code exists: it reverts at once, at no cost, with the one byte 0xEF. It has used no gas, and the
      create uses all of it. */
  lemma {:induction false} RevertsAtOnce(cfg: Config, w: World, msg: Message, local: seq<int>)
    requires GoodConfig(cfg) && msg.depth <= cfg.stackLimit && msg.to.Some? && msg.code.Some? && msg.code.value != []
    requires cfg.eip3541 && Endowed(cfg, w, msg).1.None?
    requires var w1 := Endowed(cfg, w, msg).0;
             cfg.handler(FirstFrame(cfg, w1, msg, true), w1) == EvmTypes.Step(0, RevertWith([FORMAT]), local)
    ensures var r := RunInterpreter(cfg, Endowed(cfg, w, msg).0, msg, true).result;
            r.gasUsed == 0 && r.error == Some(Reverted) && r.returnValue == [FORMAT]
    ensures var r := CreateAt(cfg, w, msg).result;
            r.gasUsed == msg.gasLimit && r.error == Some(InvalidBytecode) && r.returnValue == []
  {
    hide PrecompilesOk, Keeps, Endowed;
    var w1 := Endowed(cfg, w, msg).0;
    var f := FirstFrame(cfg, w1, msg, true);
    assert f.run.gasLeft == msg.gasLimit && Cost(cfg, cfg.handler(f, w1)) == 0;
    var f1 := f.(run := f.run.(gasLeft := f.run.gasLeft - 0, local := local));
    assert RunStep(cfg, f, w1) == Dispatched(cfg, f1, w1, RevertWith([FORMAT])) ==
      Simple(cfg, f1, w1, RevertWith([FORMAT]));
    assert RunFrom(cfg, f, w1) == RunStep(cfg, f, w1);
  }
}
