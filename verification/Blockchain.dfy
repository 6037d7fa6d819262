/** `packages/blockchain/src/blockchain.ts`: operations are queued while the tables are read as they were,
    and written in one batch. Every method is proved to do what `Chain` says. */
module Blockchain {
  import opened Wrappers
  import opened Chain
  import opened ChainLaws

  class Blockchain {
    const genesisBlock: Header
    var db: DB
    var heads: map<string, Hash>
    var headHeaderHash: Hash
    var headBlockHash: Hash

    function State(): State
      reads this
    {
      Chain.State(genesisBlock, db, heads, headHeaderHash, headBlockHash)
    }

    static function GenesisOps(genesis: Header): seq<DBOp> {
      [SetTD(genesis.hash, genesis.number, genesis.difficulty), SetHeader(genesis),
       SetNumberToHash(genesis.number, genesis.hash), SetHashToNumber(genesis.hash, genesis.number)]
    }

    static lemma {:induction false} InitialBatch(genesis: Header)
      ensures Batch(DB(map[], map[], map[], map[]), GenesisOps(genesis)) == Initial(genesis).db
    {
      var db, ops := DB(map[], map[], map[], map[]), GenesisOps(genesis);
      BatchOne(db, [], ops[0]);
      BatchOne(db, ops[..1], ops[1]);
      BatchOne(db, ops[..2], ops[2]);
      BatchOne(db, ops[..3], ops[3]);
      assert ops[..1] == [] + [ops[0]] && ops[..2] == ops[..1] + [ops[1]] && ops[..3] == ops[..2] + [ops[2]]
        && ops == ops[..3] + [ops[3]];
    }

    /** `createBlockchain` on an empty database. */
    constructor (genesis: Header)
      requires genesis.number == 0
      ensures State() == Initial(genesis) && Good(State())
    {
      genesisBlock := genesis;
      db := Batch(DB(map[], map[], map[], map[]), GenesisOps(genesis));
      heads := map[];
      headHeaderHash, headBlockHash := genesis.hash, genesis.hash;
      InitialBatch(genesis);
      InitialIsGood(genesis);
    }

    // -------------------------------------------------------------------------------------
    // Reorganising
    // -------------------------------------------------------------------------------------

    /** `getCanonicalHeader`; nothing when it throws. On a good state it finds the ancestor of the head at that
        height, and throws exactly above the head. */
    method GetCanonicalHeader(number: nat) returns (header: Option<Header>)
      ensures header == if number in db.numberToHash then FindHeader(db, db.numberToHash[number], number) else None
      ensures Good(State()) ==>
                header == AncestorAt(db, HeadHeader(State()), number) && (header.Some? <==> number <= Top(State()))
    {
      if Good(State()) {
        LookupFindsAncestor(State(), number);
      }
      hide Good;
      if number !in db.numberToHash {
        return None;
      }
      return FindHeader(db, db.numberToHash[number], number);
    }

    /** `findCommonAncestor` (blockchain.ts:1038-1071): it stops exactly at the joint, and throws exactly when
        there is none. */
    method FindCommonAncestor(newHeader0: Header) returns (commonAncestor: Option<Header>)
      requires Good(State()) && NoCollision(db, newHeader0)
      ensures commonAncestor == Joint(db, newHeader0)
    {
      ghost var top := Top(State());
      Stored(State(), headHeaderHash);
      var newHeader := newHeader0;
      var header := db.headers[(headHeaderHash, db.hashToNumber[headHeaderHash])];
      if header.number > newHeader.number {
        assert Linked(db, newHeader.number);
        var canonical := GetCanonicalHeader(newHeader.number);
        header := canonical.value;
        assert Keyed(db, db.numberToHash[newHeader.number], newHeader.number);
      } else {
        while header.number != newHeader.number && newHeader.number > 0
          invariant header.number <= newHeader.number && NoCollision(db, newHeader)
          invariant Joint(db, newHeader) == Joint(db, newHeader0)
          decreases newHeader.number
        {
          var parent := FindHeader(db, newHeader.parentHash, newHeader.number - 1);
          if parent.None? {
            return None;
          }
          StoredIsNoCollision(db, newHeader.parentHash, newHeader.number - 1);
          newHeader := parent.value;
        }
      }
      assert header.number == newHeader.number;
      while header.hash != newHeader.hash && header.number > 0
        invariant header.number == newHeader.number <= top && NoCollision(db, newHeader)
        invariant OnChain(db, header) && (header.hash, header.number) in db.headers
                  && db.headers[(header.hash, header.number)] == header
        invariant Joint(db, newHeader) == Joint(db, newHeader0)
        decreases header.number
      {
        assert Linked(db, header.number - 1);
        assert Keyed(db, db.numberToHash[header.number - 1], header.number - 1);
        var canonical := GetCanonicalHeader(header.number - 1);
        header := canonical.value;
        var parent := FindHeader(db, newHeader.parentHash, newHeader.number - 1);
        if parent.None? {
          return None;
        }
        StoredIsNoCollision(db, newHeader.parentHash, newHeader.number - 1);
        newHeader := parent.value;
      }
      if header.hash != newHeader.hash {
        return None;
      }
      return Some(header);
    }

    /** What has become of a hash when the loop below has come to `end`. */
    static ghost function CutUpTo(db: DB, from: nat, end: nat, hash: Hash, to: Hash): Hash {
      if Canonical(db, hash) && from <= db.hashToNumber[hash] < end then to else hash
    }

    static ghost predicate CutHeads(db: DB, from: nat, end: nat, to: Hash, before: map<string, Hash>,
                                    after: map<string, Hash>) {
      && before.Keys == after.Keys
      && forall name :: name in before ==> after[name] == CutUpTo(db, from, end, before[name], to)
    }

    lemma {:induction false} CutNone(from: nat, to: Hash)
      ensures CutPointers(from, from, to, State(), State())
    {}

    /** One more block of the index. */
    lemma {:induction false} CutNext(from: nat, end: nat, hash: Hash, to: Hash)
      requires Sane(db) && end in db.numberToHash && (db.numberToHash[end], end) in db.headers && from <= end
      requires to != db.numberToHash[end]
      ensures CutUpTo(db, from, end + 1, hash, to) ==
              if CutUpTo(db, from, end, hash, to) == db.numberToHash[end] then to else CutUpTo(db, from, end, hash, to)
    {
      assert Keyed(db, db.numberToHash[end], end);
    }

    /** Past the end of the index the loop has cut everything. */
    static lemma {:induction false} CutDone(db: DB, from: nat, end: nat, top: nat, hash: Hash, to: Hash)
      requires Indexed(db, top) && end !in db.numberToHash && from <= end
      ensures CutUpTo(db, from, end, hash, to) == CutBack(db, from, hash, to)
    {}

    /** No index entry is queued yet, and the new head stays. */
    ghost predicate CanCut(from: nat, headHash: Hash, dbOps0: seq<DBOp>, top: nat)
      reads this`db
    {
      && Sane(db) && Indexed(db, top) && Batch(db, dbOps0).numberToHash == db.numberToHash
      && forall n :: n in db.numberToHash && n >= from ==> db.numberToHash[n] != headHash
    }

    /** The index from `from` on is queued for deletion, and nothing else. */
    ghost predicate CutFrom(from: nat, dbOps0: seq<DBOp>, dbOps: seq<DBOp>)
      reads this`db
    {
      Batch(db, dbOps) == Batch(db, dbOps0).(numberToHash := IndexBelow(db, from))
    }

    /** `_deleteCanonicalChainReferences` (blockchain.ts:1086-1138). */
    method DeleteCanonicalChainReferences(from: nat, headHash: Hash, dbOps0: seq<DBOp>, ghost top: nat)
      returns (dbOps: seq<DBOp>)
      requires CanCut(from, headHash, dbOps0, top)
      modifies this`heads, this`headHeaderHash, this`headBlockHash
      ensures CutFrom(from, dbOps0, dbOps) && State() == HeadsCutBack(old(State()), from, headHash)
    {
      hide Blockchain.Cutting, Blockchain.CutPointers, CanCut, CutFrom, Canonical, Sane, Indexed, IndexBelow, Batch,
        HeadsCutBack;
      dbOps := dbOps0;
      var blockNumber := from;
      ghost var s0 := State();
      CutNone(from, headHash);
      CutStarts(from, headHash, top, dbOps0);
      while blockNumber in db.numberToHash
        invariant Cutting(db, from, top, blockNumber, dbOps0, dbOps)
        invariant CutPointers(from, blockNumber, headHash, s0, State())
        invariant db == s0.db
        decreases top + 1 - blockNumber
      {
        CutOne(from, headHash, top, blockNumber, dbOps0, dbOps);
        dbOps := dbOps + [DelNumberToHash(blockNumber)];
        Redirect(from, blockNumber, headHash, s0);
        blockNumber := blockNumber + 1;
      }
      CutEnds(from, top, blockNumber, dbOps0, dbOps);
      PointersDone(from, blockNumber, top, headHash, s0, State());
    }

    static lemma {:induction false} PointersDone(from: nat, end: nat, top: nat, to: Hash, s0: State, s: State)
      requires Indexed(s.db, top) && end !in s.db.numberToHash && from <= end
      requires CutPointers(from, end, to, s0, s)
      ensures s == HeadsCutBack(s0, from, to)
    {
      CutDone(s.db, from, end, top, s0.headHeader, to);
      CutDone(s.db, from, end, top, s0.headBlock, to);
      HeadsDone(s.db, from, end, top, to, s0.heads, s.heads);
    }

    /** All pointers to canonical blocks from `from` up to `end` have been moved. */
    static ghost predicate CutPointers(from: nat, end: nat, to: Hash, s0: State, s: State) {
      && s.db == s0.db && s.genesis == s0.genesis
      && CutHeads(s0.db, from, end, to, s0.heads, s.heads)
      && s.headHeader == CutUpTo(s0.db, from, end, s0.headHeader, to)
      && s.headBlock == CutUpTo(s0.db, from, end, s0.headBlock, to)
    }

    /** The body of the loop. */
    method Redirect(ghost from: nat, blockNumber: nat, headHash: Hash, ghost s0: State)
      requires Sane(db) && blockNumber in db.numberToHash && (db.numberToHash[blockNumber], blockNumber) in db.headers
      requires from <= blockNumber && headHash != db.numberToHash[blockNumber]
      requires CutPointers(from, blockNumber, headHash, s0, State())
      modifies this`heads, this`headHeaderHash, this`headBlockHash
      ensures CutPointers(from, blockNumber + 1, headHash, s0, State())
    {
      hide Sane, Blockchain.CutUpTo;
      var hash := db.numberToHash[blockNumber];
      RedirectHeads(from, blockNumber, headHash, s0.heads);
      CutNext(from, blockNumber, s0.headHeader, headHash);
      if headHeaderHash == hash {
        headHeaderHash := headHash;
      }
      CutNext(from, blockNumber, s0.headBlock, headHash);
      if headBlockHash == hash {
        headBlockHash := headHash;
      }
    }

    static lemma {:induction false} HeadsDone(db: DB, from: nat, end: nat, top: nat, to: Hash,
                                              before: map<string, Hash>, after: map<string, Hash>)
      requires Indexed(db, top) && end !in db.numberToHash && from <= end && CutHeads(db, from, end, to, before, after)
      ensures after == map name | name in before :: CutBack(db, from, before[name], to)
    {
      forall name | name in before ensures after[name] == CutBack(db, from, before[name], to) {
        CutDone(db, from, end, top, before[name], to);
      }
    }

    /** The loop has queued the deletion of the index from `from` up to `end`. */
    static ghost predicate Cutting(db: DB, from: nat, top: nat, end: nat, dbOps0: seq<DBOp>, dbOps: seq<DBOp>) {
      && Sane(db) && Indexed(db, top) && from <= end && (end <= top + 1 || end == from)
      && Batch(db, dbOps) ==
         Batch(db, dbOps0).(numberToHash := map n | n in db.numberToHash && !(from <= n < end) :: db.numberToHash[n])
    }

    lemma {:induction false} CutStarts(from: nat, headHash: Hash, top: nat, dbOps: seq<DBOp>)
      requires CanCut(from, headHash, dbOps, top)
      ensures Cutting(db, from, top, from, dbOps, dbOps)
    {}

    lemma {:induction false} CutOne(from: nat, headHash: Hash, top: nat, end: nat, dbOps0: seq<DBOp>, dbOps: seq<DBOp>)
      requires CanCut(from, headHash, dbOps0, top)
      requires Cutting(db, from, top, end, dbOps0, dbOps) && end in db.numberToHash
      ensures Cutting(db, from, top, end + 1, dbOps0, dbOps + [DelNumberToHash(end)])
      ensures Sane(db) && from <= end <= top && (db.numberToHash[end], end) in db.headers
              && headHash != db.numberToHash[end]
    {
      BatchOne(db, dbOps, DelNumberToHash(end));
      assert Linked(db, end);
    }

    lemma {:induction false} CutEnds(from: nat, top: nat, end: nat, dbOps0: seq<DBOp>, dbOps: seq<DBOp>)
      requires Cutting(db, from, top, end, dbOps0, dbOps) && end !in db.numberToHash
      ensures from <= end && Indexed(db, top) && CutFrom(from, dbOps0, dbOps)
    {}

    /** The inner loop: every head on the block that goes is moved. */
    method RedirectHeads(ghost from: nat, blockNumber: nat, headHash: Hash, ghost before: map<string, Hash>)
      requires Sane(db) && blockNumber in db.numberToHash && (db.numberToHash[blockNumber], blockNumber) in db.headers
      requires from <= blockNumber && headHash != db.numberToHash[blockNumber]
      requires CutHeads(db, from, blockNumber, headHash, before, heads)
      modifies this`heads
      ensures CutHeads(db, from, blockNumber + 1, headHash, before, heads)
    {
      var hash := db.numberToHash[blockNumber];
      var todo := heads.Keys;
      while todo != {}
        invariant todo <= heads.Keys == before.Keys
        invariant forall name :: name in before ==>
                    heads[name] == CutUpTo(db, from, if name in todo then blockNumber else blockNumber + 1,
                                           before[name], headHash)
      {
        var name :| name in todo;
        CutNext(from, blockNumber, before[name], headHash);
        if heads[name] == hash {
          heads := heads[name := headHash];
        }
        todo := todo - {name};
      }
    }

    /** Is this hash canonical above `low` and at `high` or below? */
    static predicate StaleIn(db: DB, low: nat, high: nat, hash: Hash) {
      Canonical(db, hash) && low < db.hashToNumber[hash] <= high
    }

    /** `_rebuildCanonical` (blockchain.ts:1155-1217): it rewrites the index down to the joint, and moves heads
        from the stale part back to the joint. */
    method RebuildCanonical(header0: Header, dbOps0: seq<DBOp>, ghost top: nat) returns (dbOps: seq<DBOp>)
      requires Sane(db) && Indexed(db, top) && NoCollision(db, header0) && Joint(db, header0).Some?
      requires Batch(db, dbOps0).numberToHash == IndexBelow(db, header0.number + 1)
      requires Batch(db, dbOps0).hashToNumber == db.hashToNumber
      modifies this`heads, this`headBlockHash
      ensures Batch(db, dbOps) ==
              Batch(db, dbOps0).(numberToHash := NewIndex(db, header0),
                                 hashToNumber := db.hashToNumber[header0.hash := header0.number])
      ensures var joint := Joint(db, header0).value;
              && heads == (map name | name in old(heads) ::
                             if StaleIn(db, joint.number, header0.number, old(heads)[name]) then joint.hash
                               else old(heads)[name])
              && headBlockHash == if StaleIn(db, joint.number, header0.number, old(headBlockHash)) then joint.hash
                 else old(headBlockHash)
    {
      hide NewIndex, IndexBelow, Joint, StaleIn;
      var header, staleHeads, staleHeadBlock;
      header, dbOps, staleHeads, staleHeadBlock := RewriteIndex(header0, dbOps0, top);
      heads := map name | name in heads :: if name in staleHeads then header.hash else heads[name];
      if staleHeadBlock {
        headBlockHash := header.hash;
      }
    }

    /** The index above `header0` is queued for deletion, and the walk back from it meets the canonical chain. */
    ghost predicate CanRewrite(header0: Header, dbOps0: seq<DBOp>, top: nat)
      reads this`db
    {
      && Sane(db) && Indexed(db, top) && NoCollision(db, header0) && Joint(db, header0).Some?
      && Batch(db, dbOps0).numberToHash == IndexBelow(db, header0.number + 1)
      && Batch(db, dbOps0).hashToNumber == db.hashToNumber
    }

    /** The loop of `_rebuildCanonical`; it ends at the joint. */
    method RewriteIndex(header0: Header, dbOps0: seq<DBOp>, ghost top: nat)
      returns (header: Header, dbOps: seq<DBOp>, staleHeads: set<string>, staleHeadBlock: bool)
      requires CanRewrite(header0, dbOps0, top)
      ensures Sane(db) && Some(header) == Joint(db, header0)
      ensures Queued(dbOps0, dbOps, NewIndex(db, header0), db.hashToNumber[header0.hash := header0.number])
      ensures StaleSoFar(header.number, header0.number, staleHeads, staleHeadBlock)
    {
      header, dbOps := header0, dbOps0;
      staleHeads, staleHeadBlock := {}, false;
      ghost var rewritten: map<nat, Hash> := map[];
      hide *;
      RewriteStarts(header0, dbOps0, top);
      while !OnChain(db, header)
        invariant Rewriting(header0, dbOps0, top, header, dbOps, rewritten)
        invariant StaleSoFar(header.number, header0.number, staleHeads, staleHeadBlock)
        decreases header.number
      {
        RewriteOne(header0, dbOps0, top, header, dbOps, rewritten);
        dbOps := dbOps + [SetNumberToHash(header.number, header.hash)] + [SetHashToNumber(header.hash, header.number)];
        staleHeads, staleHeadBlock := MarkStale(header.number, header0.number, top, staleHeads, staleHeadBlock);
        rewritten := map[header.number := header.hash] + rewritten;
        header := FindHeader(db, header.parentHash, header.number - 1).value;
      }
      RewriteDone(header0, dbOps0, top, header, dbOps, rewritten);
      assert StaleSoFar(header.number, header0.number, staleHeads, staleHeadBlock);
    }

    /** Marks the heads that point to the block that is indexed under a number (blockchain.ts:1184-1198). */
    method MarkStale(number: nat, ghost high: nat, ghost top: nat, staleHeads0: set<string>, staleHeadBlock0: bool)
      returns (staleHeads: set<string>, staleHeadBlock: bool)
      requires Sane(db) && Indexed(db, top) && 0 < number <= high
               && StaleSoFar(number, high, staleHeads0, staleHeadBlock0)
      ensures StaleSoFar(number - 1, high, staleHeads, staleHeadBlock)
    {
      staleHeads, staleHeadBlock := staleHeads0, staleHeadBlock0;
      MoreStale(number, high, top, staleHeads, staleHeadBlock);
      hide Sane, Indexed, StaleSoFar;
      if number in db.numberToHash {
        var staleHash := db.numberToHash[number];
        staleHeads := staleHeads + set name | name in heads && heads[name] == staleHash;
        staleHeadBlock := staleHeadBlock || headBlockHash == staleHash;
      }
    }

    /** Everything above `header` has been rewritten. */
    ghost predicate Rewriting(header0: Header, dbOps0: seq<DBOp>, top: nat, header: Header, dbOps: seq<DBOp>,
                              rewritten: map<nat, Hash>)
      reads this`db
    {
      && Sane(db) && Indexed(db, top) && Joint(db, header0).Some? && NoCollision(db, header0)
      && header.number <= header0.number && NoCollision(db, header) && Joint(db, header) == Joint(db, header0)
      && (header == header0 || IsStored(db, header))
      && (forall n: nat :: n in rewritten <==> header.number < n <= header0.number)
      && NewIndex(db, header0) == NewIndex(db, header) + rewritten
      && Queued(dbOps0, dbOps, IndexBelow(db, header0.number + 1) + rewritten,
                if header == header0 then db.hashToNumber else db.hashToNumber[header0.hash := header0.number])
    }

    /** What the queued operations add to those before. */
    ghost predicate Queued(dbOps0: seq<DBOp>, dbOps: seq<DBOp>, numberToHash: map<nat, Hash>,
                           hashToNumber: map<Hash, nat>)
      reads this`db
    {
      Batch(db, dbOps) == Batch(db, dbOps0).(numberToHash := numberToHash, hashToNumber := hashToNumber)
    }

    ghost predicate StaleSoFar(low: nat, high: nat, staleHeads: set<string>, staleHeadBlock: bool)
      reads this
    {
      && staleHeads == (set name | name in heads && StaleIn(db, low, high, heads[name]))
      && (staleHeadBlock <==> StaleIn(db, low, high, headBlockHash))
    }

    /** `DBSaveLookups`. */
    lemma {:induction false} QueueLookups(dbOps0: seq<DBOp>, dbOps: seq<DBOp>, header: Header,
                                          numberToHash: map<nat, Hash>, hashToNumber: map<Hash, nat>)
      requires Queued(dbOps0, dbOps, numberToHash, hashToNumber)
      ensures Queued(dbOps0,
                     dbOps + [SetNumberToHash(header.number, header.hash)]
                           + [SetHashToNumber(header.hash, header.number)],
                     numberToHash[header.number := header.hash], hashToNumber[header.hash := header.number])
    {
      BatchOne(db, dbOps, SetNumberToHash(header.number, header.hash));
      BatchOne(db, dbOps + [SetNumberToHash(header.number, header.hash)], SetHashToNumber(header.hash, header.number));
    }

    /** Going one block further down. */
    lemma {:induction false} MoreStale(number: nat, high: nat, top: nat, staleHeads: set<string>, staleHeadBlock: bool)
      requires Sane(db) && Indexed(db, top) && 0 < number <= high
               && StaleSoFar(number, high, staleHeads, staleHeadBlock)
      ensures number !in db.numberToHash ==> StaleSoFar(number - 1, high, staleHeads, staleHeadBlock)
      ensures number in db.numberToHash ==>
                StaleSoFar(number - 1, high,
                           staleHeads + (set name | name in heads && heads[name] == db.numberToHash[number]),
                           staleHeadBlock || headBlockHash == db.numberToHash[number])
    {
      if number in db.numberToHash {
        assert Linked(db, number) && Keyed(db, db.numberToHash[number], number);
        assert Canonical(db, db.numberToHash[number]);
      }
      forall hash ensures StaleIn(db, number - 1, high, hash) <==>
                            StaleIn(db, number, high, hash)
                              || (number in db.numberToHash && hash == db.numberToHash[number])
      {
      }
    }

    lemma {:induction false} RewriteOne(header0: Header, dbOps0: seq<DBOp>, top: nat, header: Header, dbOps: seq<DBOp>,
                                        rewritten: map<nat, Hash>)
      requires Rewriting(header0, dbOps0, top, header, dbOps, rewritten) && !OnChain(db, header)
      ensures Sane(db) && Indexed(db, top) && 0 < header.number <= header0.number
              && (header.parentHash, header.number - 1) in db.headers
      ensures FindHeader(db, header.parentHash, header.number - 1).Some?
      ensures var p, more := FindHeader(db, header.parentHash, header.number - 1).value,
              map[header.number := header.hash] + rewritten;
              && p.number == header.number - 1
              && Rewriting(header0, dbOps0, top, p,
                           dbOps + [SetNumberToHash(header.number, header.hash)]
                                 + [SetHashToNumber(header.hash, header.number)],
                           more)
    {
      hide IndexBelow, NewIndex, Joint, Indexed, Queued, NoCollision, Sane;
      IndexOne(header0, header, rewritten);
      StoredIsNoCollision(db, header.parentHash, header.number - 1);
      QueueLookups(dbOps0, dbOps, header, IndexBelow(db, header0.number + 1) + rewritten,
                   if header == header0 then db.hashToNumber else db.hashToNumber[header0.hash := header0.number]);
      Overlay(IndexBelow(db, header0.number + 1), header.number, header.hash, rewritten);
      HashesKept(header0, header);
    }

    lemma {:induction false} HashesKept(header0: Header, header: Header)
      requires NoCollision(db, header0) && (header == header0 || IsStored(db, header))
      ensures var before := if header == header0 then db.hashToNumber
              else db.hashToNumber[header0.hash := header0.number];
              before[header.hash := header.number] == db.hashToNumber[header0.hash := header0.number]
    {
      if header != header0 {
        assert header.hash != header0.hash;
      }
    }

    /** One block further down, the new index has one more entry on top of what is left. */
    lemma {:induction false} IndexOne(header0: Header, header: Header, rewritten: map<nat, Hash>)
      requires Sane(db) && !OnChain(db, header) && Joint(db, header).Some? && Joint(db, header0).Some?
      requires NewIndex(db, header0) == NewIndex(db, header) + rewritten && header.number !in rewritten
      ensures header.number > 0 && (header.parentHash, header.number - 1) in db.headers
      ensures var p := Parent(db, header).value;
              && p.number == header.number - 1 && Joint(db, p) == Joint(db, header)
              && NewIndex(db, header0) == NewIndex(db, p) + (map[header.number := header.hash] + rewritten)
    {
      assert Keyed(db, header.parentHash, header.number - 1);
      Overlay(NewIndex(db, Parent(db, header).value), header.number, header.hash, rewritten);
    }

    lemma {:induction false} RewriteStarts(header: Header, dbOps: seq<DBOp>, top: nat)
      requires CanRewrite(header, dbOps, top)
      ensures Rewriting(header, dbOps, top, header, dbOps, map[])
      ensures StaleSoFar(header.number, header.number, {}, false)
    {
      var none: map<nat, Hash> := map[];
      assert NewIndex(db, header) == NewIndex(db, header) + none;
      assert IndexBelow(db, header.number + 1) + none == IndexBelow(db, header.number + 1);
    }

    static lemma {:induction false} Overlay(a: map<nat, Hash>, k: nat, v: Hash, r: map<nat, Hash>)
      requires k !in r
      ensures a[k := v] + r == a + (map[k := v] + r) && (a + r)[k := v] == a + (map[k := v] + r)
    {}

    /** At the joint the rest of the index is as it was. */
    lemma {:induction false} RewriteDone(header0: Header, dbOps0: seq<DBOp>, top: nat, header: Header, dbOps: seq<DBOp>,
                                         rewritten: map<nat, Hash>)
      requires Rewriting(header0, dbOps0, top, header, dbOps, rewritten) && OnChain(db, header)
      ensures Sane(db) && Some(header) == Joint(db, header0)
      ensures Queued(dbOps0, dbOps, NewIndex(db, header0), db.hashToNumber[header0.hash := header0.number])
    {
      hide IndexBelow, NewIndex, Indexed, NoCollision, Sane;
      IndexDone(header0.number, header, rewritten, top);
      if header == header0 {
        assert db.hashToNumber[header.hash := header.number] == db.hashToNumber;
      }
    }

    lemma {:induction false} IndexDone(high: nat, header: Header, rewritten: map<nat, Hash>, top: nat)
      requires Sane(db) && Indexed(db, top) && OnChain(db, header)
      requires header.number <= high && forall n: nat :: n in rewritten <==> header.number < n <= high
      ensures Joint(db, header) == Some(header)
              && IndexBelow(db, high + 1) + rewritten == NewIndex(db, header) + rewritten
      ensures header.hash in db.hashToNumber && db.hashToNumber[header.hash] == header.number
    {
      assert Linked(db, header.number) && Keyed(db, header.hash, header.number);
    }

    /** Stored under its own key. */
    static ghost predicate IsStored(db: DB, h: Header) {
      (h.hash, h.number) in db.headers && db.headers[(h.hash, h.number)] == h && h.hash in db.hashToNumber
        && db.hashToNumber[h.hash] == h.number
    }

    // -------------------------------------------------------------------------------------
    // Putting
    // -------------------------------------------------------------------------------------

    /** `_putBlockOrHeader` (blockchain.ts:384-501). `valid` is what the chain id, block and consensus checks
        say; when it throws the heads are restored and nothing is written. */
    method PutBlockOrHeader(header: Header, isBlock: bool, valid: bool, proofOfStake: bool) returns (ok: bool)
      requires Good(State()) && NoCollision(db, header)
      modifies this
      ensures ok <==> PutResult(old(State()), header, isBlock, valid, proofOfStake).Some?
      ensures State() == PutResult(old(State()), header, isBlock, valid, proofOfStake).UnwrapOr(old(State()))
      ensures Good(State())
    {
      hide Good, Joint, NewIndex, Canonical, NoCollision;
      PutIsGood(State(), header, isBlock, valid, proofOfStake);
      var oldHeads, oldHeadHeaderHash, oldHeadBlockHash := heads, headHeaderHash, headBlockHash;
      if header.number == 0 {
        return header.hash == genesisBlock.hash;
      }
      if !valid {
        return false;
      }
      HeadsKnown();
      var currentTdHeader := TotalDifficulty(db, headHeaderHash, db.hashToNumber[headHeaderHash]);
      var currentTdBlock := TotalDifficulty(db, headBlockHash, db.hashToNumber[headBlockHash]);
      var parentTd := TotalDifficulty(db, header.parentHash, header.number - 1);
      var td := header.difficulty + parentTd;
      var dbOps := [SetTD(header.hash, header.number, td)] + [SetHeader(header)];
      QueueHeader(header, td);
      if td > currentTdHeader || proofOfStake {
        var commonAncestor := FindCommonAncestor(header);
        if commonAncestor.None? {
          heads, headHeaderHash, headBlockHash := oldHeads, oldHeadHeaderHash, oldHeadBlockHash;
          return false;
        }
        Reorganise(header, isBlock, dbOps);
      } else {
        if td > currentTdBlock && isBlock {
          headBlockHash := header.hash;
        }
        BatchOne(db, dbOps, SetHashToNumber(header.hash, header.number));
        dbOps := dbOps + [SetHashToNumber(header.hash, header.number)];
        db := Batch(db, dbOps);
      }
      return true;
    }

    lemma {:induction false} HeadsKnown()
      requires Good(State())
      ensures headHeaderHash in db.hashToNumber && headBlockHash in db.hashToNumber && Sane(db)
    {}

    lemma {:induction false} QueueHeader(header: Header, td: nat)
      ensures Batch(db, [SetTD(header.hash, header.number, td)] + [SetHeader(header)]) ==
              db.(td := db.td[(header.hash, header.number) := td],
                  headers := db.headers[(header.hash, header.number) := header])
    {
      BatchOne(db, [], SetTD(header.hash, header.number, td));
      assert [] + [SetTD(header.hash, header.number, td)] == [SetTD(header.hash, header.number, td)];
      BatchOne(db, [SetTD(header.hash, header.number, td)], SetHeader(header));
    }

    /** Making a header the head of the canonical chain (blockchain.ts:459-477). */
    method Reorganise(header: Header, isBlock: bool, dbOps0: seq<DBOp>)
      requires Good(State()) && NoCollision(db, header) && header.number > 0 && Joint(db, header).Some?
      requires Batch(db, dbOps0) == db.(td := db.td[(header.hash, header.number) := NewTD(db, header)],
                                        headers := db.headers[(header.hash, header.number) := header])
      modifies this
      ensures State() == PutOnTop(old(State()), header, isBlock)
    {
      hide Good, Joint, NewIndex, Canonical, NoCollision, IndexBelow, Blockchain.StaleIn, PutOnTop, Batch;
      ghost var s := State();
      HeadsKnown();
      ghost var top := Top(s);
      ReadyToReorganise(header);
      headHeaderHash := header.hash;
      if isBlock {
        headBlockHash := header.hash;
      }
      var dbOps := DeleteCanonicalChainReferences(header.number + 1, header.hash, dbOps0, top);
      ghost var cut, cutBlock := heads, headBlockHash;
      dbOps := RebuildCanonical(header, dbOps, top);
      Reorganised(s, header, isBlock, cut, cutBlock, heads, headBlockHash, Batch(db, dbOps));
      db := Batch(db, dbOps);
    }

    /** The two passes over the heads, and the new tables, together. */
    static lemma {:induction false} Reorganised(s: State, h: Header, isBlock: bool, cut: map<string, Hash>,
                                                cutBlock: Hash, heads: map<string, Hash>, headBlock: Hash, db: DB)
      requires Good(s) && NoCollision(s.db, h) && h.number > 0 && Joint(s.db, h).Some?
      requires cut == map name | name in s.heads :: CutBack(s.db, h.number + 1, s.heads[name], h.hash)
      requires cutBlock == CutBack(s.db, h.number + 1, if isBlock then h.hash else s.headBlock, h.hash)
      requires var joint := Joint(s.db, h).value;
               && heads == (map name | name in cut ::
                              if StaleIn(s.db, joint.number, h.number, cut[name]) then joint.hash else cut[name])
               && headBlock == if StaleIn(s.db, joint.number, h.number, cutBlock) then joint.hash else cutBlock
      requires db == DB(s.db.headers[(h.hash, h.number) := h], s.db.td[(h.hash, h.number) := NewTD(s.db, h)],
                        s.db.hashToNumber[h.hash := h.number], NewIndex(s.db, h))
      ensures Chain.State(s.genesis, db, heads, h.hash, headBlock) == PutOnTop(s, h, isBlock)
    {
      hide Good, Joint, NewIndex, Canonical, NoCollision, CutBack, Blockchain.StaleIn, Redirected;
      SaneState(s);
      Composed(s.db, h, s.headBlock);
      forall name | name in s.heads ensures heads[name] == Redirected(s.db, Joint(s.db, h).value, h, s.heads[name]) {
        Composed(s.db, h, s.heads[name]);
      }
    }

    /** A head after both passes. */
    static ghost function Moved(db: DB, header: Header, hash: Hash): Hash
      requires Sane(db) && Joint(db, header).Some?
    {
      var joint := Joint(db, header).value;
      var cut := CutBack(db, header.number + 1, hash, header.hash);
      if StaleIn(db, joint.number, header.number, cut) then joint.hash else cut
    }

    /** The two passes together; the new head itself is moved by neither. */
    static lemma {:induction false} Composed(db: DB, header: Header, hash: Hash)
      requires Sane(db) && NoCollision(db, header) && Joint(db, header).Some?
      ensures Moved(db, header, hash) == Redirected(db, Joint(db, header).value, header, hash)
      ensures Moved(db, header, header.hash) == header.hash
    {
      if Canonical(db, header.hash) {
        assert Keyed(db, header.hash, db.hashToNumber[header.hash]);
      }
    }

    lemma {:induction false} ReadyToReorganise(header: Header)
      requires Good(State()) && NoCollision(db, header) && Joint(db, header).Some?
      ensures Sane(db) && Indexed(db, Top(State()))
      ensures forall n :: n in db.numberToHash && n >= header.number + 1 ==> db.numberToHash[n] != header.hash
      ensures CutBack(db, header.number + 1, header.hash, header.hash) == header.hash
    {
      forall n | n in db.numberToHash && n >= header.number + 1 ensures db.numberToHash[n] != header.hash {
        assert Linked(db, n) && Keyed(db, db.numberToHash[n], n);
      }
    }

    // -------------------------------------------------------------------------------------
    // Going back
    // -------------------------------------------------------------------------------------

    /** `resetCanonicalHead` (blockchain.ts:335-370). */
    method ResetCanonicalHead(canonicalHead: nat) returns (ok: bool)
      requires Good(State())
      modifies this
      ensures ok <==> ResetResult(old(State()), canonicalHead).Some?
      ensures State() == ResetResult(old(State()), canonicalHead).UnwrapOr(old(State()))
      ensures Good(State())
    {
      hide Good, Canonical, IndexBelow, CutBack;
      if canonicalHead !in db.numberToHash {
        return false;
      }
      ResetIsGood(State(), canonicalHead);
      ReadyToCut(canonicalHead + 1);
      var hash := db.numberToHash[canonicalHead];
      var dbOps := DeleteCanonicalChainReferences(canonicalHead + 1, hash, [], Top(State()));
      db := Batch(db, dbOps);
      return true;
    }

    lemma {:induction false} ReadyToCut(number: nat)
      requires Good(State()) && 0 < number && number - 1 in db.numberToHash
      ensures Sane(db) && headHeaderHash in db.hashToNumber && Indexed(db, Top(State()))
      ensures forall n :: n in db.numberToHash && n >= number ==> db.numberToHash[n] != db.numberToHash[number - 1]
    {
      assert Linked(db, number - 1) && Keyed(db, db.numberToHash[number - 1], number - 1);
      forall n | n in db.numberToHash && n >= number ensures db.numberToHash[n] != db.numberToHash[number - 1] {
        assert Linked(db, n) && Keyed(db, db.numberToHash[n], n);
      }
    }

    /** `delBlock` and `_delBlock` (blockchain.ts:831-877); the parent hash of the genesis block is the hash of
        no block. */
    method DelBlock(blockHash: Hash) returns (ok: bool)
      requires Good(State()) && genesisBlock.parentHash !in db.hashToNumber
      modifies this
      ensures ok <==> DeleteResult(old(State()), blockHash).Some?
      ensures State() == DeleteResult(old(State()), blockHash).UnwrapOr(old(State()))
      ensures ok ==> (Good(State()) <==>
                        if Canonical(old(db), blockHash) then old(db).hashToNumber[blockHash] > 0
                          else blockHash != old(headBlockHash))
    {
      if blockHash !in db.hashToNumber {
        return false;
      }
      ghost var s := State();
      Stored(s, blockHash);
      DeleteExactly(s, blockHash);
      var header := db.headers[(blockHash, db.hashToNumber[blockHash])];
      var blockNumber, parentHash := header.number, header.parentHash;
      var inCanonical := blockNumber in db.numberToHash && db.numberToHash[blockNumber] == blockHash;
      var dbOps;
      if inCanonical {
        dbOps := DeleteCanonical(header);
      } else {
        dbOps := QueueDeletion(blockHash, blockNumber, []);
        ErasedAside(header, dbOps);
      }
      db := Batch(db, dbOps);
      return true;
    }

    /** The part of `_delBlock` for a canonical block. */
    method DeleteCanonical(header: Header) returns (dbOps: seq<DBOp>)
      requires Good(State()) && (header.hash, header.number) in db.headers
               && db.headers[(header.hash, header.number)] == header
      requires OnChain(db, header) && genesisBlock.parentHash !in db.hashToNumber
      modifies this`heads, this`headHeaderHash, this`headBlockHash
      ensures State() == HeadsCutBack(old(State()), header.number, header.parentHash)
      ensures Batch(db, dbOps) == WithoutBlocks(db, header)
    {
      ghost var s0, top := State(), Top(State());
      ParentIsBelow(header);
      hide Good, Sane, Indexed, Canonical, IndexBelow, HeadsCutBack, Batch, WithoutBlocks, Erased;
      dbOps := DelChild(header.hash, header.number, header.parentHash, [], top);
      ghost var erased := dbOps;
      dbOps := DeleteCanonicalChainReferences(header.number, header.parentHash, dbOps, top);
      CutTwice(s0, header.number, header.parentHash);
      ErasedCanonical(header, erased, dbOps);
    }

    /** The four deletions of a block. */
    method QueueDeletion(blockHash: Hash, blockNumber: nat, ops0: seq<DBOp>) returns (ops: seq<DBOp>)
      ensures Batch(db, ops) == Without(Batch(db, ops0), blockHash, blockNumber)
    {
      hide Batch;
      ops := ops0;
      BatchOne(db, ops, DelHeader(blockHash, blockNumber));
      ops := ops + [DelHeader(blockHash, blockNumber)];
      BatchOne(db, ops, DelHashToNumber(blockHash));
      ops := ops + [DelHashToNumber(blockHash)];
      BatchOne(db, ops, DelTD(blockHash, blockNumber));
      ops := ops + [DelTD(blockHash, blockNumber)];
    }

    static function Without(b: DB, hash: Hash, number: nat): DB {
      DB(b.headers - {(hash, number)}, b.td - {(hash, number)}, b.hashToNumber - {hash}, b.numberToHash)
    }

    /** `_delChild` for a canonical block (blockchain.ts:894-929): the block, and every canonical block above it. */
    method DelChild(blockHash: Hash, blockNumber: nat, headHash: Hash, ops0: seq<DBOp>, ghost top: nat)
      returns (ops: seq<DBOp>)
      requires Sane(db) && Indexed(db, top) && blockNumber in db.numberToHash
               && db.numberToHash[blockNumber] == blockHash
      requires forall n :: n in db.numberToHash && n >= blockNumber ==> db.numberToHash[n] != headHash
      modifies this`headHeaderHash, this`headBlockHash
      ensures Batch(db, ops) == Erased(db, blockNumber, Batch(db, ops0))
      ensures headHeaderHash == CutBack(db, blockNumber, old(headHeaderHash), headHash)
      ensures headBlockHash == CutBack(db, blockNumber, old(headBlockHash), headHash)
      decreases top + 1 - blockNumber
    {
      ops := QueueDeletion(blockHash, blockNumber, ops0);
      ChildCut(blockNumber, top, headHeaderHash, headHash);
      ChildCut(blockNumber, top, headBlockHash, headHash);
      ChildErased(blockNumber, top, Batch(db, ops0));
      hide Sane, Indexed, CutBack, Erased, Batch, Blockchain.Without;
      if headHeaderHash == blockHash {
        headHeaderHash := headHash;
      }
      if headBlockHash == blockHash {
        headBlockHash := headHash;
      }
      if blockNumber + 1 in db.numberToHash {
        ops := DelChild(db.numberToHash[blockNumber + 1], blockNumber + 1, headHash, ops, top);
      }
    }

    /** A canonical block at `from` or above. */
    static predicate GoneFrom(db: DB, from: nat, hash: Hash, number: nat) {
      number >= from && number in db.numberToHash && db.numberToHash[number] == hash
    }

    /** `b` without these blocks. */
    static ghost function Erased(db: DB, from: nat, b: DB): DB {
      DB(map key | key in b.headers && !GoneFrom(db, from, key.0, key.1) :: b.headers[key],
         map key | key in b.td && !GoneFrom(db, from, key.0, key.1) :: b.td[key],
         map hash | hash in b.hashToNumber
           && !(hash in db.hashToNumber && GoneFrom(db, from, hash, db.hashToNumber[hash])) :: b.hashToNumber[hash],
         b.numberToHash)
    }

    /** Erasing one block, and then those above it. */
    lemma {:induction false} ChildErased(from: nat, top: nat, b: DB)
      requires Sane(db) && Indexed(db, top) && from in db.numberToHash
      ensures from <= top
      ensures from + 1 in db.numberToHash
              ==> Erased(db, from + 1, Without(b, db.numberToHash[from], from)) == Erased(db, from, b)
      ensures from + 1 !in db.numberToHash ==> Without(b, db.numberToHash[from], from) == Erased(db, from, b)
    {
      var hash := db.numberToHash[from];
      assert Linked(db, from) && Keyed(db, hash, from);
      forall x, n: nat ensures GoneFrom(db, from, x, n) <==> (x, n) == (hash, from) || GoneFrom(db, from + 1, x, n) {
      }
      ErasedMore(db, from, hash, b, Without(b, hash, from));
      if from + 1 !in db.numberToHash {
        NoneGone(from + 1, top);
        ErasedNothing(db, from + 1, Without(b, hash, from));
      }
    }

    /** One more block. */
    static lemma {:induction false} ErasedMore(db: DB, from: nat, hash: Hash, b: DB, w: DB)
      requires forall x, n: nat :: GoneFrom(db, from, x, n) <==> (x, n) == (hash, from) || GoneFrom(db, from + 1, x, n)
      requires hash in db.hashToNumber && db.hashToNumber[hash] == from && w == Without(b, hash, from)
      ensures Erased(db, from + 1, w) == Erased(db, from, b)
    {
      hide Blockchain.GoneFrom;
      var e, e' := Erased(db, from + 1, w), Erased(db, from, b);
      assert e.headers == e'.headers;
      assert e.td == e'.td;
      assert e.hashToNumber == e'.hashToNumber;
    }

    static lemma {:induction false} ErasedNothing(db: DB, from: nat, b: DB)
      requires forall x, n: nat :: !GoneFrom(db, from, x, n)
      ensures Erased(db, from, b) == b
    {
      hide Blockchain.GoneFrom;
    }

    lemma {:induction false} NoneGone(from: nat, top: nat)
      requires Indexed(db, top) && from !in db.numberToHash
      ensures forall hash, n: nat :: !GoneFrom(db, from, hash, n)
    {}

    lemma {:induction false} ChildCut(from: nat, top: nat, hash: Hash, to: Hash)
      requires Sane(db) && Indexed(db, top) && from in db.numberToHash
      requires forall n :: n in db.numberToHash && n >= from ==> db.numberToHash[n] != to
      ensures var next := if hash == db.numberToHash[from] then to else hash;
              && (from + 1 in db.numberToHash ==> CutBack(db, from + 1, next, to) == CutBack(db, from, hash, to))
              && (from + 1 !in db.numberToHash ==> next == CutBack(db, from, hash, to))
    {
      assert Linked(db, from) && Keyed(db, db.numberToHash[from], from);
    }

    /** The parent of a canonical block is not among the blocks that go with it. */
    lemma {:induction false} ParentIsBelow(header: Header)
      requires Good(State()) && (header.hash, header.number) in db.headers
               && db.headers[(header.hash, header.number)] == header
      requires OnChain(db, header) && genesisBlock.parentHash !in db.hashToNumber
      ensures Sane(db) && Indexed(db, Top(State()))
      ensures forall n :: n in db.numberToHash && n >= header.number ==> db.numberToHash[n] != header.parentHash
    {
      assert Linked(db, header.number);
      if header.number > 0 {
        assert Linked(db, header.number - 1) && Keyed(db, header.parentHash, header.number - 1);
      }
      forall n | n in db.numberToHash && n >= header.number ensures db.numberToHash[n] != header.parentHash {
        assert Linked(db, n) && Keyed(db, db.numberToHash[n], n);
      }
    }

    static lemma {:induction false} CutTwice(s: State, from: nat, to: Hash)
      ensures HeadsCutBack(s.(headHeader := CutBack(s.db, from, s.headHeader, to),
                              headBlock := CutBack(s.db, from, s.headBlock, to)), from, to)
              == HeadsCutBack(s, from, to)
    {}

    lemma {:induction false} ErasedAside(header: Header, ops: seq<DBOp>)
      requires Sane(db) && (header.hash, header.number) in db.headers && !OnChain(db, header)
      requires Batch(db, ops) == Without(Batch(db, []), header.hash, header.number)
      ensures Batch(db, ops) == WithoutBlocks(db, header)
    {
      assert Keyed(db, header.hash, header.number);
    }

    lemma {:induction false} ErasedCanonical(header: Header, erased: seq<DBOp>, ops: seq<DBOp>)
      requires Sane(db) && OnChain(db, header)
      requires Batch(db, erased) == Erased(db, header.number, Batch(db, []))
      requires Batch(db, ops) == Batch(db, erased).(numberToHash := IndexBelow(db, header.number))
      ensures Batch(db, ops) == WithoutBlocks(db, header)
    {}

    /** `setIteratorHead` (blockchain.ts:1025-1030). */
    method SetIteratorHead(tag: string, headHash: Hash)
      requires Good(State())
      modifies this`heads
      ensures State() == Step(old(State()), SetHead(tag, headHash))
      ensures Good(State()) <==> Canonical(db, headHash)
    {
      SetHeadExactly(State(), tag, headHash);
      heads := heads[tag := headHash];
    }
  }
}
