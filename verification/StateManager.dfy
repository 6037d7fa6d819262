/** `packages/statemanager/src/simpleStateManager.ts`: three stacks of maps. */
module StateManager {
  import opened Wrappers
  import opened JournalLog
  import opened EvmTypes

  datatype Tables = Tables(accounts: map<Address, Option<Account>>, codes: map<Address, Bytes>,
                           storage: map<(Address, Bytes), Bytes>)

  /** The fields to change. */
  datatype AccountFields = AccountFields(nonce: Option<nat>, balance: Option<nat>, storageRoot: Option<Bytes>,
                                         codeHash: Option<Bytes>)

  const NO_FIELDS := AccountFields(None, None, None, None)

  class SimpleStateManager {
    const cfg: Config
    var accountStack: seq<map<Address, Option<Account>>>
    var codeStack: seq<map<Address, Bytes>>
    var storageStack: seq<map<(Address, Bytes), Bytes>>

    predicate Valid()
      reads this
    {
      |accountStack| == |codeStack| == |storageStack| && accountStack != []
    }

    function At(i: nat): Tables
      reads this
      requires Valid() && i < |accountStack|
    {
      Tables(accountStack[i], codeStack[i], storageStack[i])
    }

    /** What is read and written. */
    function Now(): Tables
      reads this
      requires Valid()
    {
      At(|accountStack| - 1)
    }

    /** What each open checkpoint goes back to, the outermost first. */
    ghost function Below(): seq<Tables>
      reads this
      requires Valid()
    {
      var accounts, codes, storages := accountStack, codeStack, storageStack;
      seq(|accounts| - 1, i requires 0 <= i < |accounts| - 1 => Tables(accounts[i], codes[i], storages[i]))
    }

    constructor (cfg: Config)
      ensures Valid() && this.cfg == cfg && Now() == Tables(map[], map[], map[]) && Below() == []
    {
      this.cfg := cfg;
      accountStack, codeStack, storageStack := [map[]], [map[]], [map[]];
    }

    function TopAccountStack(): map<Address, Option<Account>>
      reads this
      requires accountStack != []
    {
      accountStack[|accountStack| - 1]
    }

    /** `checkpointSync` (simpleStateManager.ts:55-67); accounts are values here, so the copy of every
        account is the account. */
    method Checkpoint()
      requires Valid()
      modifies this
      ensures Valid() && Now() == old(Now()) && Below() == old(Below()) + [old(Now())]
    {
      accountStack := accountStack + [TopAccountStack()];
      codeStack := codeStack + [codeStack[|codeStack| - 1]];
      storageStack := storageStack + [storageStack[|storageStack| - 1]];
    }

    /** `splice(-2, 1)` on each stack (simpleStateManager.ts:119-123). */
    method Commit()
      requires Valid() && |accountStack| >= 2
      modifies this
      ensures Valid() && Now() == old(Now()) && Below() == old(Below())[..|old(Below())| - 1]
    {
      var n := |accountStack|;
      accountStack := accountStack[..n - 2] + accountStack[n - 1..];
      codeStack := codeStack[..n - 2] + codeStack[n - 1..];
      storageStack := storageStack[..n - 2] + storageStack[n - 1..];
    }

    /** simpleStateManager.ts:125-129. */
    method Revert()
      requires Valid() && |accountStack| >= 2
      modifies this
      ensures Valid() && Now() == old(Below())[|old(Below())| - 1] && Below() == old(Below())[..|old(Below())| - 1]
    {
      accountStack := accountStack[..|accountStack| - 1];
      codeStack := codeStack[..|codeStack| - 1];
      storageStack := storageStack[..|storageStack| - 1];
    }

    method GetAccount(address: Address) returns (account: Option<Account>)
      requires Valid()
      ensures account == if address in Now().accounts then Now().accounts[address] else None
    {
      account := if address in TopAccountStack() then TopAccountStack()[address] else None;
    }

    method PutAccount(address: Address, account: Option<Account>)
      requires Valid()
      modifies this
      ensures Valid() && Below() == old(Below())
      ensures Now() == old(Now()).(accounts := old(Now()).accounts[address := account])
    {
      accountStack := accountStack[|accountStack| - 1 := TopAccountStack()[address := account]];
    }

    method DeleteAccount(address: Address)
      requires Valid()
      modifies this
      ensures Valid() && Below() == old(Below())
      ensures Now() == old(Now()).(accounts := old(Now()).accounts[address := None])
    {
      accountStack := accountStack[|accountStack| - 1 := TopAccountStack()[address := None]];
    }

    /** `modifyAccountFields` (statemanager/src/util.ts:6-28). */
    method ModifyAccountFields(address: Address, fields: AccountFields)
      requires Valid()
      modifies this
      ensures Valid() && Below() == old(Below())
      ensures var before :=
              (if address in old(Now()).accounts then old(Now()).accounts[address] else None).UnwrapOr(NewAccount(cfg));
              var after := Account(fields.nonce.UnwrapOr(before.nonce), fields.balance.UnwrapOr(before.balance),
                                   fields.codeHash.UnwrapOr(before.codeHash),
                                   fields.storageRoot.UnwrapOr(before.storageRoot));
              Now() == old(Now()).(accounts := old(Now()).accounts[address := Some(after)])
    {
      var found := GetAccount(address);
      var account := found.UnwrapOr(NewAccount(cfg));
      account := account.(nonce := fields.nonce.UnwrapOr(account.nonce));
      account := account.(balance := fields.balance.UnwrapOr(account.balance));
      account := account.(storageRoot := fields.storageRoot.UnwrapOr(account.storageRoot));
      account := account.(codeHash := fields.codeHash.UnwrapOr(account.codeHash));
      PutAccount(address, Some(account));
    }

    method GetCode(address: Address) returns (code: Bytes)
      requires Valid()
      ensures code == if address in Now().codes then Now().codes[address] else []
    {
      var top := codeStack[|codeStack| - 1];
      code := if address in top then top[address] else [];
    }

    /** simpleStateManager.ts:89-97. */
    method PutCode(address: Address, value: Bytes)
      requires Valid()
      modifies this
      ensures Valid() && Below() == old(Below())
      ensures var before :=
              (if address in old(Now()).accounts then old(Now()).accounts[address] else None).UnwrapOr(NewAccount(cfg));
              Now() == old(Now()).(codes := old(Now()).codes[address := value],
                                   accounts := old(Now()).accounts[address :=
                                                                   Some(before.(codeHash := cfg.keccak(value)))])
    {
      codeStack := codeStack[|codeStack| - 1 := codeStack[|codeStack| - 1][address := value]];
      assert Below() == old(Below());
      var account := GetAccount(address);
      if account.None? {
        PutAccount(address, Some(NewAccount(cfg)));
      }
      ModifyAccountFields(address, NO_FIELDS.(codeHash := Some(cfg.keccak(value))));
    }

    method PutStorage(address: Address, key: Bytes, value: Bytes)
      requires Valid()
      modifies this
      ensures Valid() && Below() == old(Below())
      ensures Now() == old(Now()).(storage := old(Now()).storage[(address, key) := value])
    {
      storageStack := storageStack[|storageStack| - 1 := storageStack[|storageStack| - 1][(address, key) := value]];
    }
  }
}
