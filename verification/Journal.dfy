/** `packages/evm/src/journal.ts`: warm and touched addresses over the state manager. */
module Journal {
  import opened Wrappers
  import opened JournalLog
  import opened EvmTypes
  import opened StateManager

  class Journal {
    const stateManager: SimpleStateManager
    var journal: WarmMap
    var alwaysWarmJournal: WarmMap
    var touched: set<Address>
    var journalDiff: seq<Entry>
    var journalHeight: int

    ghost function Log(): Log
      reads this
    {
      JournalLog.Log(journal, touched, journalDiff, journalHeight)
    }

    ghost predicate Valid()
      reads this, stateManager
    {
      Good(Log()) && stateManager.Valid() && |stateManager.Below()| >= journalHeight
    }

    /** What each open checkpoint goes back to. */
    ghost function Below(): seq<Snap>
      reads this
      requires Good(Log())
    {
      View(Log()).below
    }

    constructor (stateManager: SimpleStateManager)
      requires stateManager.Valid()
      ensures Valid() && this.stateManager == stateManager && Log() == FRESH && alwaysWarmJournal == map[]
    {
      this.stateManager := stateManager;
      journal, alwaysWarmJournal, touched := map[], map[], {};
      journalDiff, journalHeight := [Entry(0, NO_DIFF)], 0;
    }

    // -------------------------------------------------------------------------------------
    // Checkpoints
    // -------------------------------------------------------------------------------------

    /** journal.ts:122-126. */
    method Checkpoint()
      requires Valid()
      modifies this, stateManager
      ensures Valid() && Log() == LogCheckpoint(old(Log())) && alwaysWarmJournal == old(alwaysWarmJournal)
      ensures journal == old(journal) && touched == old(touched)
      ensures Below() == old(Below()) + [Snap(journal, touched - {RIPEMD160})]
      ensures stateManager.Now() == old(stateManager.Now())
      ensures stateManager.Below() == old(stateManager.Below()) + [old(stateManager.Now())]
    {
      CheckpointStep(Log());
      journalHeight := journalHeight + 1;
      journalDiff := journalDiff + [Entry(journalHeight, NO_DIFF)];
      stateManager.Checkpoint();
    }

    /** journal.ts:116-120. */
    method Commit()
      requires Valid() && journalHeight >= 1
      modifies this, stateManager
      ensures Valid() && Log() == LogCommit(old(Log())) && alwaysWarmJournal == old(alwaysWarmJournal)
      ensures journal == old(journal) && touched == old(touched)
      ensures Below() == old(Below())[..|old(Below())| - 1]
      ensures stateManager.Now() == old(stateManager.Now())
      ensures stateManager.Below() == old(stateManager.Below())[..|old(stateManager.Below())| - 1]
    {
      CommitStep(Log());
      journalHeight := journalHeight - 1;
      journalDiff := journalDiff + [Entry(journalHeight, NO_DIFF)];
      stateManager.Commit();
    }

    /** journal.ts:128-178. */
    method Revert()
      requires Valid() && journalHeight >= 1
      modifies this, stateManager
      ensures Valid() && Log() == LogRevert(old(Log())) && alwaysWarmJournal == old(alwaysWarmJournal)
      ensures var saved := old(Below())[|old(Below())| - 1];
              journal == saved.warm && touched == saved.touched + (old(touched) * {RIPEMD160})
      ensures Below() == old(Below())[..|old(Below())| - 1]
      ensures stateManager.Now() == old(stateManager.Below())[|old(stateManager.Below())| - 1]
      ensures stateManager.Below() == old(stateManager.Below())[..|old(stateManager.Below())| - 1]
    {
      hide View, Rewound, TouchedSince;
      RevertStep(Log());
      RevertedTo(Log());
      var finalI := UndoBack();
      journalDiff := journalDiff[..finalI + 1];
      journalHeight := journalHeight - 1;
      stateManager.Revert();
    }

    /** The loop of `revert`. */
    method UndoBack() returns (finalI: nat)
      requires journalDiff != []
      modifies this`journal, this`touched
      ensures finalI == FinalI(journalDiff, journalHeight)
      ensures journal == Rewound(journalDiff, journalHeight, old(journal))
      ensures touched == old(touched) - (TouchedSince(journalDiff, journalHeight) - {RIPEMD160})
    {
      hide Undo;
      ghost var diffs, h := journalDiff, journalHeight;
      assert diffs[..|diffs|] == diffs;
      finalI := 0;
      var i := |journalDiff| - 1;
      while i >= 0
        invariant -1 <= i < |diffs|
        invariant i < |diffs| - 1 ==> finalI == i + 1
        invariant i >= 0 ==> FinalI(diffs[..i + 1], h) == FinalI(diffs, h)
        invariant i == -1 ==> FinalI(diffs, h) == 0
        invariant Rewound(diffs[..i + 1], h, journal) == Rewound(diffs, h, old(journal))
        invariant touched - (TouchedSince(diffs[..i + 1], h) - {RIPEMD160}) ==
                  old(touched) - (TouchedSince(diffs, h) - {RIPEMD160})
      {
        finalI := i;
        var height, diff := journalDiff[i].height, journalDiff[i].diff;
        assert diffs[..i + 1][..i] == diffs[..i];
        if height < journalHeight {
          break;
        }
        UndoDiff(diff);
        i := i - 1;
      }
    }

    /** The body of the loop of `revert`. */
    method UndoDiff(diff: Diff)
      modifies this`journal, this`touched
      ensures journal == Undo(diff, old(journal)) && touched == old(touched) - (diff.touched - {RIPEMD160})
    {
      RemoveAddresses(diff.addresses);
      RemoveSlots(diff.slots);
      RemoveTouched(diff.touched);
    }

    /** The first inner loop of `revert`. */
    method RemoveAddresses(addresses: set<Address>)
      modifies this`journal
      ensures journal == map a | a in old(journal) && a !in addresses :: old(journal)[a]
    {
      var todo := addresses;
      while todo != {}
        invariant todo <= addresses
        invariant journal == map a | a in old(journal) && a !in addresses - todo :: old(journal)[a]
      {
        var address :| address in todo;
        if address in journal {
          journal := journal - {address};
        }
        todo := todo - {address};
      }
    }

    /** The second. */
    method RemoveSlots(slotsMap: map<Address, set<Slot>>)
      modifies this`journal
      ensures journal == map a | a in old(journal) :: old(journal)[a] - SlotsOf(slotsMap, a)
    {
      var todo := slotsMap.Keys;
      assert forall a | a in journal && a !in slotsMap :: journal[a] - SlotsOf(slotsMap, a) == journal[a];
      while todo != {}
        invariant todo <= slotsMap.Keys
        invariant journal == map a | a in old(journal) ::
                    if a in todo then old(journal)[a] else old(journal)[a] - SlotsOf(slotsMap, a)
      {
        var address :| address in todo;
        if address in journal {
          var slots := RemoveAll(journal[address], slotsMap[address]);
          journal := journal[address := slots];
        }
        todo := todo - {address};
      }
    }

    method RemoveAll(slots0: set<Slot>, delSlots: set<Slot>) returns (slots: set<Slot>)
      ensures slots == slots0 - delSlots
    {
      slots := slots0;
      var todo := delSlots;
      while todo != {}
        invariant todo <= delSlots && slots == slots0 - (delSlots - todo)
      {
        var delSlot :| delSlot in todo;
        slots, todo := slots - {delSlot}, todo - {delSlot};
      }
    }

    /** The third: the sticky address stays touched. */
    method RemoveTouched(touchedSet: set<Address>)
      modifies this`touched
      ensures touched == old(touched) - (touchedSet - {RIPEMD160})
    {
      var todo := touchedSet;
      while todo != {}
        invariant todo <= touchedSet && touched == old(touched) - (touchedSet - todo - {RIPEMD160})
      {
        var address :| address in todo;
        if address != RIPEMD160 {
          touched := touched - {address};
        }
        todo := todo - {address};
      }
    }

    // -------------------------------------------------------------------------------------
    // Notes
    // -------------------------------------------------------------------------------------

    /** `touchAccount` (journal.ts:97-115). */
    method TouchAccount(address: Address)
      requires Valid()
      modifies this`touched, this`journalDiff
      ensures Valid() && Log() == LogTouch(old(Log()), address)
      ensures touched == old(touched) + {address} && Below() == old(Below())
    {
      TouchStep(Log(), address);
      if address !in touched {
        touched := touched + {address};
        var diff := journalDiff[|journalDiff| - 1].diff;
        journalDiff := Noted(journalDiff, diff.(touched := diff.touched + {address}));
      }
    }

    /** journal.ts:82-85. */
    method PutAccount(address: Address, account: Option<Account>)
      requires Valid()
      modifies this, stateManager
      ensures Valid() && Log() == LogTouch(old(Log()), address) && alwaysWarmJournal == old(alwaysWarmJournal)
      ensures journal == old(journal) && touched == old(touched) + {address} && Below() == old(Below())
      ensures stateManager.Now() ==
              old(stateManager.Now()).(accounts := old(stateManager.Now()).accounts[address := account])
      ensures stateManager.Below() == old(stateManager.Below())
    {
      TouchAccount(address);
      stateManager.PutAccount(address, account);
    }

    /** `addWarmedAddress` (journal.ts:248-260). */
    method AddWarmedAddress(address: Address)
      requires Valid()
      modifies this`journal, this`journalDiff
      ensures Valid() && Log() == LogWarmAddress(old(Log()), address)
      ensures journal == old(journal)[address := SlotsOf(old(journal), address)] && Below() == old(Below())
    {
      WarmAddressStep(Log(), address);
      if address !in journal {
        journal := journal[address := {}];
        var diff := journalDiff[|journalDiff| - 1].diff;
        journalDiff := Noted(journalDiff, diff.(addresses := diff.addresses + {address}));
      }
    }

    /** `addWarmedStorage` (journal.ts:289-312). */
    method AddWarmedStorage(address: Address, slot: Slot)
      requires Valid()
      modifies this`journal, this`journalDiff
      ensures Valid() && Log() == LogWarmSlot(old(Log()), address, slot)
      ensures journal == old(journal)[address := SlotsOf(old(journal), address) + {slot}] && Below() == old(Below())
    {
      WarmSlotStep(Log(), address, slot);
      if address !in journal {
        AddWarmedAddress(address);
      }
      var slots := journal[address];
      if slot !in slots {
        journal := journal[address := slots + {slot}];
        var diff := journalDiff[|journalDiff| - 1].diff;
        journalDiff := Noted(journalDiff, diff.(slots := diff.slots[address := SlotsOf(diff.slots, address) + {slot}]));
      }
    }

    /** journal.ts:223-232. */
    method AddAlwaysWarmSlot(address: Address, slot: Slot)
      modifies this`alwaysWarmJournal
      ensures alwaysWarmJournal == old(alwaysWarmJournal)[address := SlotsOf(old(alwaysWarmJournal), address) + {slot}]
    {
      if address !in alwaysWarmJournal {
        alwaysWarmJournal := alwaysWarmJournal[address := {}];
      }
      alwaysWarmJournal := alwaysWarmJournal[address := alwaysWarmJournal[address] + {slot}];
    }

    method IsWarmedAddress(address: Address) returns (warm: bool)
      ensures warm <==> address in journal || address in alwaysWarmJournal
    {
      warm := address in journal || address in alwaysWarmJournal;
    }

    /** `isWarmedStorage` (journal.ts:267-282): warm in either place. */
    method IsWarmedStorage(address: Address, slot: Slot) returns (warm: bool)
      ensures warm <==> slot in SlotsOf(journal, address) || slot in SlotsOf(alwaysWarmJournal, address)
    {
      if address !in journal {
        if address in alwaysWarmJournal {
          return slot in alwaysWarmJournal[address];
        }
        return false;
      }
      if slot in journal[address] {
        return true;
      } else if address in alwaysWarmJournal {
        return slot in alwaysWarmJournal[address];
      }
      return false;
    }
  }
}
