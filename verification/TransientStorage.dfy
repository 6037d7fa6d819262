/** `packages/evm/src/transientStorage.ts` (EIP-1153). */
module TransientStorage {
  import opened JournalLog
  import opened EvmTypes
  import opened TransientLog

  class TransientStorage {
    var storage: Storage
    var changeJournal: seq<Change>
    var indices: seq<nat>

    ghost function Log(): TLog
      reads this
    {
      TLog(storage, changeJournal, indices)
    }

    ghost predicate Valid()
      reads this
    {
      TGood(Log()) && forall i | 0 <= i < |changeJournal| :: changeJournal[i].addr in storage
    }

    /** Every slot that does not read as zero. */
    function Now(): SlotMap
      reads this
    {
      Values(storage)
    }

    ghost function Below(): seq<SlotMap>
      reads this
    {
      TView(Log()).below
    }

    constructor ()
      ensures Valid() && Log() == TLog(map[], [], [0])
    {
      storage, changeJournal, indices := map[], [], [0];
    }

    method Get(addr: Address, key: Bytes) returns (value: Bytes)
      ensures value == Read(Now(), addr, key)
    {
      ReadIsGet(storage, addr, key);
      if addr !in storage {
        return ZERO_WORD;
      }
      value := if key in storage[addr] then storage[addr][key] else ZERO_WORD;
    }

    /** transientStorage.ts:53-78. A key that is not 32 bytes long or a value that is longer throws. */
    method Put(addr: Address, key: Bytes, value: Bytes) returns (thrown: bool)
      requires Valid()
      modifies this
      ensures thrown <==> |key| != 32 || |value| > 32
      ensures thrown ==> Log() == old(Log())
      ensures !thrown ==> Log() == TPut(old(Log()), addr, key, value)
                          && Now() == PutTransient(old(Now()), addr, key, value)
      ensures Valid() && Below() == old(Below()) && indices == old(indices)
    {
      hide *;
      thrown := |key| != 32 || |value| > 32;
      if !thrown {
        Write(addr, key, value);
      }
    }

    /** What it does after these checks. */
    method Write(addr: Address, key: Bytes, value: Bytes)
      requires Valid()
      modifies this
      ensures Valid() && Log() == TPut(old(Log()), addr, key, value)
      ensures Now() == PutTransient(old(Now()), addr, key, value) && Below() == old(Below())
      ensures indices == old(indices)
    {
      hide Values, Undone, PutTransient;
      TPutStep(Log(), addr, key, value);
      if addr !in storage {
        storage := storage[addr := map[]];
      }
      var prevValue := if key in storage[addr] then storage[addr][key] else ZERO_WORD;
      changeJournal := changeJournal + [Change(addr, key, prevValue)];
      storage := storage[addr := storage[addr][key := value]];
    }

    method Commit()
      requires Valid() && indices != []
      modifies this
      ensures Valid() && Log() == TCommit(old(Log())) && Now() == old(Now())
      ensures Below() == old(Below())[..|old(indices)| - 1] && indices == old(indices)[..|old(indices)| - 1]
    {
      TCommitStep(Log());
      indices := indices[..|indices| - 1];
    }

    method Checkpoint()
      requires Valid()
      modifies this
      ensures Valid() && Log() == TCheckpoint(old(Log())) && Now() == old(Now())
      ensures Below() == old(Below()) + [old(Now())] && indices == old(indices) + [|old(changeJournal)|]
    {
      TCheckpointStep(Log());
      indices := indices + [|changeJournal|];
    }

    /** transientStorage.ts:99-108. */
    method Revert()
      requires Valid() && indices != []
      modifies this
      ensures Valid() && Log() == TRevert(old(Log())) && Now() == old(Below())[|old(indices)| - 1]
      ensures Below() == old(Below())[..|old(indices)| - 1] && indices == old(indices)[..|old(indices)| - 1]
    {
      hide Values;
      TRevertStep(Log());
      assert changeJournal[..|changeJournal|] == changeJournal;
      ghost var log := Log();
      var lastCheckpoint := indices[|indices| - 1];
      indices := indices[..|indices| - 1];
      var i := |changeJournal| - 1;
      while i >= lastCheckpoint
        invariant lastCheckpoint - 1 <= i < |changeJournal| && changeJournal == log.changes
                  && indices == log.indices[..|log.indices| - 1]
        invariant forall j | 0 <= j < |changeJournal| :: changeJournal[j].addr in storage
        invariant Undone(storage, changeJournal[..i + 1], lastCheckpoint) ==
                  Undone(log.storage, log.changes, lastCheckpoint)
      {
        var change := changeJournal[i];
        assert changeJournal[..i + 1][..i] == changeJournal[..i];
        storage := storage[change.addr := storage[change.addr][change.key := change.prevValue]];
        i := i - 1;
      }
      changeJournal := changeJournal[..lastCheckpoint];
    }

    /** transientStorage.ts:127-130. The checkpoints stay, so they must all be at the start of the log for
        the storage to be usable afterwards. */
    method Clear()
      modifies this
      ensures Log() == TLog(map[], [], old(indices))
      ensures Valid() <==> forall i | 0 <= i < |indices| :: indices[i] == 0
      ensures Now() == map[] && forall i | 0 <= i < |Below()| :: Below()[i] == map[]
    {
      storage := map[];
      changeJournal := [];
      assert Slots(storage) == {};
    }
  }
}
