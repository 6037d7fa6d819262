/** What every run of `Chain`'s operations keeps. */
module ChainLaws {
  import opened Wrappers
  import opened Chain

  // ---------------------------------------------------------------------------------------
  // The new index
  // ---------------------------------------------------------------------------------------

  /** A hash stands for one header. */
  ghost predicate NoCollision(db: DB, h: Header) {
    forall number :: (h.hash, number) in db.headers ==> db.headers[(h.hash, number)] == h
  }

  lemma {:induction false} StoredIsNoCollision(db: DB, hash: Hash, number: nat)
    requires Sane(db) && (hash, number) in db.headers
    ensures NoCollision(db, db.headers[(hash, number)])
    ensures Keyed(db, hash, number)
  {
    assert Keyed(db, hash, number);
    forall n | (hash, n) in db.headers ensures n == number {
      assert Keyed(db, hash, n);
    }
  }

  /** The index that ends at `h`: contiguous, linked, and nothing above `h`. */
  lemma {:induction false} NewIndexLinked(db: DB, top: nat, h: Header)
    requires Sane(db) && Indexed(db, top) && NoCollision(db, h) && Joint(db, h).Some?
    ensures var index := NewIndex(db, h);
            && (forall n: nat :: n in index <==> n <= h.number)
            && index[h.number] == h.hash
            && (h.number > 0 ==> h.parentHash == index[h.number - 1])
            && forall n | 0 <= n < h.number :: LinkedIn(db, index, n)
    decreases h.number
  {
    if OnChain(db, h) {
      assert Linked(db, h.number);
      forall n | 0 <= n < h.number ensures LinkedIn(db, NewIndex(db, h), n) {
        assert Linked(db, n);
      }
    } else {
      var p := Parent(db, h).value;
      StoredIsNoCollision(db, h.parentHash, h.number - 1);
      NewIndexLinked(db, top, p);
      forall n | 0 <= n < h.number ensures LinkedIn(db, NewIndex(db, h), n) {
        if n < p.number {
          assert LinkedIn(db, NewIndex(db, p), n);
        }
      }
    }
  }

  ghost predicate LinkedIn(db: DB, index: map<nat, Hash>, n: nat) {
    && n in index && (index[n], n) in db.headers
    && (n > 0 ==> n - 1 in index && db.headers[(index[n], n)].parentHash == index[n - 1])
  }

  /** Below the joint the index is as it was. */
  lemma {:induction false} NewIndexBelow(db: DB, h: Header, n: nat)
    requires Sane(db) && Joint(db, h).Some? && n <= Joint(db, h).value.number
    ensures n in db.numberToHash ==> n in NewIndex(db, h) && NewIndex(db, h)[n] == db.numberToHash[n]
    decreases h.number
  {
    if !OnChain(db, h) {
      assert Keyed(db, h.parentHash, h.number - 1);
      NewIndexBelow(db, Parent(db, h).value, n);
    }
  }

  /** Every canonical block is an ancestor of the canonical blocks above it. */
  lemma {:induction false} CanonicalAncestry(db: DB, top: nat, h: Header, n: nat)
    requires Sane(db) && Indexed(db, top) && NoCollision(db, h) && OnChain(db, h) && n <= h.number
    ensures AncestorAt(db, h, n).Some? && OnChain(db, AncestorAt(db, h, n).value)
    decreases h.number
  {
    if n < h.number {
      assert Linked(db, h.number) && Linked(db, h.number - 1);
      StoredIsNoCollision(db, h.parentHash, h.number - 1);
      CanonicalAncestry(db, top, Parent(db, h).value, n);
    }
  }

  /** The new canonical chain is the ancestry of its head, block by block, and ends there. */
  lemma {:induction false} NewIndexIsAncestry(db: DB, top: nat, h: Header, n: nat)
    requires Sane(db) && Indexed(db, top) && NoCollision(db, h) && Joint(db, h).Some?
    ensures n in NewIndex(db, h) <==> n <= h.number
    ensures n <= h.number ==> AncestorAt(db, h, n).Some? && NewIndex(db, h)[n] == AncestorAt(db, h, n).value.hash
    decreases h.number
  {
    NewIndexLinked(db, top, h);
    if n < h.number {
      if OnChain(db, h) {
        CanonicalAncestry(db, top, h, n);
      } else {
        StoredIsNoCollision(db, h.parentHash, h.number - 1);
        NewIndexIsAncestry(db, top, Parent(db, h).value, n);
      }
    }
  }

  // ---------------------------------------------------------------------------------------
  // The invariant
  // ---------------------------------------------------------------------------------------

  /** What the source checks before, or relies on: a hash stands for one header; the genesis block and
      the block the block head points to off the canonical chain are not deleted; iterator heads are set
      to canonical blocks. */
  ghost predicate Legal(s: State, op: Op)
    requires Good(s)
  {
    match op
    case Put(header, _, _, _) => NoCollision(s.db, header)
    case Reset(_) => true
    case Delete(hash) =>
      hash in s.db.hashToNumber ==>
        s.db.hashToNumber[hash] > 0 && (Canonical(s.db, hash) || hash != s.headBlock)
    case SetHead(_, head) => Canonical(s.db, head)
  }

  /** An operation; one that throws changes nothing. */
  ghost function Step(s: State, op: Op): State
    requires Good(s)
  {
    match op
    case Put(header, isBlock, valid, proofOfStake) => PutResult(s, header, isBlock, valid, proofOfStake).UnwrapOr(s)
    case Reset(number) => ResetResult(s, number).UnwrapOr(s)
    case Delete(hash) => DeleteResult(s, hash).UnwrapOr(s)
    case SetHead(tag, head) => s.(heads := s.heads[tag := head])
  }

  /** Putting a header next to the canonical chain. */
  lemma {:induction false} PutAsideIsGood(s: State, h: Header)
    requires Good(s) && NoCollision(s.db, h) && h.number > 0
    ensures Good(s.(db := WithHeader(s.db, h)))
    ensures h.hash in WithHeader(s.db, h).hashToNumber
    ensures forall hash :: Canonical(s.db, hash) ==> Canonical(WithHeader(s.db, h), hash)
  {
    var db' := WithHeader(s.db, h);
    forall hash | Canonical(s.db, hash) ensures Canonical(db', hash)
      && db'.hashToNumber[hash] == s.db.hashToNumber[hash] {
      var n := s.db.hashToNumber[hash];
      assert (hash, n) in s.db.headers && Keyed(s.db, hash, n);
    }
    forall n: nat | n <= Top(s) ensures Linked(db', n) {
      assert Linked(s.db, n) && Keyed(s.db, s.db.numberToHash[n], n);
    }
  }

  /** A block of the new index is canonical afterwards. */
  lemma {:induction false} NewlyCanonical(s: State, h: Header, n: nat)
    requires Good(s) && NoCollision(s.db, h) && h.number > 0 && Joint(s.db, h).Some? && n <= h.number
    ensures var db' := WithHeader(s.db, h).(numberToHash := NewIndex(s.db, h));
            && Sane(db') && Linked(db', n) && Canonical(db', NewIndex(s.db, h)[n])
               && db'.hashToNumber[NewIndex(s.db, h)[n]] == n
  {
    var index := NewIndex(s.db, h);
    var db' := WithHeader(s.db, h).(numberToHash := index);
    assert Sane(db') by {
      forall hash, number | (hash, number) in db'.headers ensures Keyed(db', hash, number) {
        assert Keyed(WithHeader(s.db, h), hash, number);
      }
    }
    NewIndexLinked(s.db, Top(s), h);
    if n < h.number {
      assert LinkedIn(s.db, index, n);
      assert Keyed(s.db, index[n], n);
      assert NoCollision(s.db, h);
    }
    assert Keyed(db', index[n], n);
  }

  lemma {:induction false} RedirectedIsCanonical(s: State, h: Header, hash: Hash)
    requires Good(s) && NoCollision(s.db, h) && h.number > 0 && Joint(s.db, h).Some?
    ensures var db' := WithHeader(s.db, h).(numberToHash := NewIndex(s.db, h));
            var r := Redirected(s.db, Joint(s.db, h).value, h, hash);
            && (Canonical(s.db, hash) ==> Canonical(db', r))
            && (hash in s.db.hashToNumber ==> r in db'.hashToNumber)
  {
    var joint := Joint(s.db, h).value;
    NewlyCanonical(s, h, h.number);
    NewIndexLinked(s.db, Top(s), h);
    if Canonical(s.db, hash) {
      var n := s.db.hashToNumber[hash];
      NewlyCanonical(s, h, joint.number);
      NewIndexBelow(s.db, h, joint.number);
      if n <= joint.number {
        NewIndexBelow(s.db, h, n);
        NewlyCanonical(s, h, n);
      }
    }
  }

  lemma {:induction false} PutOnTopIsGood(s: State, h: Header, isBlock: bool)
    requires Good(s) && NoCollision(s.db, h) && h.number > 0 && Joint(s.db, h).Some?
    ensures Good(PutOnTop(s, h, isBlock))
  {
    var s' := PutOnTop(s, h, isBlock);
    NewlyCanonical(s, h, h.number);
    NewIndexLinked(s.db, Top(s), h);
    forall n: nat | n <= h.number ensures Linked(s'.db, n) {
      NewlyCanonical(s, h, n);
    }
    forall name | name in s'.heads ensures Canonical(s'.db, s'.heads[name]) {
      RedirectedIsCanonical(s, h, s.heads[name]);
    }
    RedirectedIsCanonical(s, h, s.headBlock);
    NewIndexBelow(s.db, h, 0);
    assert Linked(s.db, 0);
    assert Keyed(s.db, s.genesis.hash, 0);
  }

  /** Where an iterator head ends up when the chain is rewritten. It is meant to go back to the last block of the
      old chain that is also on the new one (blockchain.ts:376-382). It does exactly when it was no higher than the
      new head, or the new head was canonical already; a higher one is moved on to the new head, past blocks of the
      new chain it has never been at. */
  lemma {:induction false} StaleHeadExactly(s: State, h: Header, hash: Hash)
    requires Good(s) && NoCollision(s.db, h) && h.number > 0 && Joint(s.db, h).Some? && Canonical(s.db, hash)
    ensures var joint, old', new' := Joint(s.db, h).value, s.db.hashToNumber[hash],
            Redirected(s.db, Joint(s.db, h).value, h, hash);
            && (Canonical(s.db, new') <==> old' <= h.number || OnChain(s.db, h))
            && (Canonical(s.db, new') ==>
                  s.db.hashToNumber[new'] == (if old' <= joint.number then old' else joint.number)
                  && new' in NewIndex(s.db, h).Values)
  {
    var joint := Joint(s.db, h).value;
    var new' := Redirected(s.db, joint, h, hash);
    assert Linked(s.db, joint.number) && Keyed(s.db, joint.hash, joint.number);
    if Canonical(s.db, h.hash) {
      assert Keyed(s.db, h.hash, s.db.hashToNumber[h.hash]);
    }
    if Canonical(s.db, new') {
      var n := s.db.hashToNumber[new'];
      NewIndexBelow(s.db, h, n);
      assert NewIndex(s.db, h)[n] == new';
    }
  }

  /** Cutting the index at `number` and sending everything above to the block below. */
  lemma {:induction false} CutIsGood(s: State, number: nat)
    requires Good(s) && 0 < number && number - 1 in s.db.numberToHash
    ensures Good(HeadsCutBack(s, number,
                              s.db.numberToHash[number - 1]).(db := s.db.(numberToHash := IndexBelow(s.db, number))))
  {
    var to := s.db.numberToHash[number - 1];
    var s' := HeadsCutBack(s, number, to).(db := s.db.(numberToHash := IndexBelow(s.db, number)));
    assert Sane(s'.db) by {
      forall hash, n | (hash, n) in s'.db.headers ensures Keyed(s'.db, hash, n) {
        assert Keyed(s.db, hash, n);
      }
    }
    assert Linked(s.db, number - 1) && Keyed(s.db, to, number - 1);
    assert Canonical(s'.db, to);
    forall hash | Canonical(s.db, hash) ensures Canonical(s'.db, CutBack(s.db, number, hash, to)) {
    }
    forall n: nat | n <= Top(s') ensures Linked(s'.db, n) {
      assert Linked(s.db, n);
    }
    assert Linked(s.db, 0);
  }

  lemma {:induction false} ResetIsGood(s: State, number: nat)
    requires Good(s) && ResetResult(s, number).Some?
    ensures Good(ResetResult(s, number).value)
  {
    CutIsGood(s, number + 1);
  }

  /** The parent of a canonical block is the canonical block below it. */
  lemma {:induction false} CanonicalParent(s: State, hash: Hash)
    requires Good(s) && Canonical(s.db, hash) && s.db.hashToNumber[hash] > 0
    ensures var n := s.db.hashToNumber[hash];
            (hash, n) in s.db.headers && n - 1 in s.db.numberToHash
              && s.db.headers[(hash, n)].parentHash == s.db.numberToHash[n - 1]
  {
    assert Linked(s.db, s.db.hashToNumber[hash]);
  }

  /** A block is stored under its hash and number. */
  lemma {:induction false} Stored(s: State, hash: Hash)
    requires Good(s) && hash in s.db.hashToNumber
    ensures var n := s.db.hashToNumber[hash];
            && (hash, n) in s.db.headers && Keyed(s.db, hash, n)
            && (OnChain(s.db, s.db.headers[(hash, n)]) <==> Canonical(s.db, hash))
  {
    assert Keyed(s.db, hash, s.db.hashToNumber[hash]);
  }

  /** Deleting a canonical block: the chain is cut below it, and the blocks above the cut are gone. */
  lemma {:induction false} DeleteCanonicalIsGood(s: State, hash: Hash)
    requires Good(s) && Canonical(s.db, hash) && s.db.hashToNumber[hash] > 0
    ensures Good(DeleteResult(s, hash).value)
  {
    var number := s.db.hashToNumber[hash];
    Stored(s, hash);
    CanonicalParent(s, hash);
    CutIsGood(s, number);
    var h := s.db.headers[(hash, number)];
    var to := h.parentHash;
    var cut := HeadsCutBack(s, number, to).(db := s.db.(numberToHash := IndexBelow(s.db, number)));
    var s' := DeleteResult(s, hash).value;
    forall x, n | (x, n) in s.db.headers && !Gone(s.db, h, x, n) ensures (x, n) in s'.db.headers && Keyed(s'.db, x, n) {
      assert Keyed(s.db, x, n);
    }
    forall x | x in s.db.hashToNumber && !Gone(s.db, h, x, s.db.hashToNumber[x])
      ensures x in s'.db.hashToNumber && s'.db.hashToNumber[x] == s.db.hashToNumber[x] {
    }
    forall x | Canonical(cut.db, x) ensures Canonical(s'.db, x) {
    }
    forall n: nat | n < number ensures Linked(s'.db, n) {
      assert Linked(s.db, n) && Linked(cut.db, n);
      assert !Gone(s.db, h, s.db.numberToHash[n], n);
    }
    if s.headBlock in s.db.hashToNumber && !Canonical(s.db, s.headBlock) {
      assert !Gone(s.db, h, s.headBlock, s.db.hashToNumber[s.headBlock]);
    }
    assert Linked(s.db, 0);
  }

  /** Deleting a block off the canonical chain. */
  lemma {:induction false} DeleteAsideIsGood(s: State, hash: Hash)
    requires Good(s) && hash in s.db.hashToNumber && !Canonical(s.db, hash)
    ensures Good(DeleteResult(s, hash).value) <==> hash != s.headBlock
  {
    var number := s.db.hashToNumber[hash];
    Stored(s, hash);
    var h := s.db.headers[(hash, number)];
    var s' := DeleteResult(s, hash).value;
    forall x, n | (x, n) in s.db.headers && !Gone(s.db, h, x, n) ensures (x, n) in s'.db.headers && Keyed(s'.db, x, n) {
      assert Keyed(s.db, x, n);
    }
    forall x | Canonical(s.db, x) ensures Canonical(s'.db, x) {
      assert !Gone(s.db, h, x, s.db.hashToNumber[x]);
    }
    forall n: nat | n <= Top(s) ensures Linked(s'.db, n) {
      assert Linked(s.db, n) && Keyed(s.db, s.db.numberToHash[n], n);
    }
    assert Linked(s.db, 0);
    assert hash !in s'.db.hashToNumber;
  }

  /** `delBlock` keeps the canonical chain whole exactly when the block is not the genesis block, and is
      not the one a block head off the canonical chain points to. */
  lemma {:induction false} DeleteExactly(s: State, hash: Hash)
    requires Good(s) && DeleteResult(s, hash).Some?
    ensures Good(DeleteResult(s, hash).value) <==>
            if Canonical(s.db, hash) then s.db.hashToNumber[hash] > 0 else hash != s.headBlock
  {
    if !Canonical(s.db, hash) {
      DeleteAsideIsGood(s, hash);
    } else if s.db.hashToNumber[hash] == 0 {
    } else {
      DeleteCanonicalIsGood(s, hash);
    }
  }

  /** Setting an iterator head keeps the invariant exactly when the head is canonical. */
  lemma {:induction false} SetHeadExactly(s: State, tag: string, head: Hash)
    requires Good(s)
    ensures Good(Step(s, SetHead(tag, head))) <==> Canonical(s.db, head)
  {
    var s' := Step(s, SetHead(tag, head));
    assert s'.heads[tag] == head;
  }

  lemma {:induction false} PutIsGood(s: State, h: Header, isBlock: bool, valid: bool, proofOfStake: bool)
    requires Good(s) && NoCollision(s.db, h)
    ensures Good(PutResult(s, h, isBlock, valid, proofOfStake).UnwrapOr(s))
  {
    if h.number > 0 && valid {
      if NewTD(s.db, h) > HeadTD(s, s.headHeader) || proofOfStake {
        if Joint(s.db, h).Some? {
          PutOnTopIsGood(s, h, isBlock);
        }
      } else {
        PutAsideIsGood(s, h);
      }
    }
  }

  /** Every operation keeps the canonical chain whole: contiguous from the genesis block to the head, each
      block the parent of the next, every iterator head on it. */
  lemma {:induction false} StepIsGood(s: State, op: Op)
    requires Good(s) && Legal(s, op)
    ensures Good(Step(s, op))
  {
    match op
    case Put(h, isBlock, valid, proofOfStake) => PutIsGood(s, h, isBlock, valid, proofOfStake);
    case Reset(number) =>
      if ResetResult(s, number).Some? {
        ResetIsGood(s, number);
      }
    case Delete(hash) =>
      if DeleteResult(s, hash).Some? {
        DeleteExactly(s, hash);
      }
    case SetHead(tag, head) => SetHeadExactly(s, tag, head);
  }

  // ---------------------------------------------------------------------------------------
  // Runs
  // ---------------------------------------------------------------------------------------

  function Initial(genesis: Header): State {
    State(genesis,
          DB(map[(genesis.hash, genesis.number) := genesis], map[(genesis.hash, genesis.number) := genesis.difficulty],
             map[genesis.hash := genesis.number], map[genesis.number := genesis.hash]),
          map[], genesis.hash, genesis.hash)
  }

  lemma {:induction false} InitialIsGood(genesis: Header)
    requires genesis.number == 0
    ensures Good(Initial(genesis))
  {
    var s := Initial(genesis);
    assert Keyed(s.db, genesis.hash, 0);
    assert Linked(s.db, 0);
  }

  /** Every operation of a run is legal where it is applied. */
  ghost predicate LegalRun(s: State, ops: seq<Op>)
    requires Good(s)
    decreases |ops|
  {
    ops == [] || (Legal(s, ops[0]) && (StepIsGood(s, ops[0]); LegalRun(Step(s, ops[0]), ops[1..])))
  }

  ghost function Run(s: State, ops: seq<Op>): (r: State)
    requires Good(s) && LegalRun(s, ops)
    ensures Good(r)
    decreases |ops|
  {
    if ops == [] then s
    else
      StepIsGood(s, ops[0]);
      Run(Step(s, ops[0]), ops[1..])
  }

  /** What `Good` comes to at the end of any legal run: every canonical block is an ancestor of the head, and
      every iterator head and the head itself are canonical. */
  lemma {:induction false} RunIsCanonical(s: State, ops: seq<Op>, n: nat)
    requires Good(s) && LegalRun(s, ops)
    ensures var r := Run(s, ops);
            && Canonical(r.db, r.headHeader) && (forall name :: name in r.heads ==> Canonical(r.db, r.heads[name]))
            && (n in r.db.numberToHash <==> n <= Top(r))
            && (n <= Top(r) ==>
                  var head := r.db.headers[(r.headHeader, Top(r))];
                  AncestorAt(r.db, head, n).Some? && AncestorAt(r.db, head, n).value.hash == r.db.numberToHash[n])
  {
    var r := Run(s, ops);
    Stored(r, r.headHeader);
    StoredIsNoCollision(r.db, r.headHeader, Top(r));
    if n <= Top(r) {
      CanonicalAncestry(r.db, Top(r), r.db.headers[(r.headHeader, Top(r))], n);
    }
  }

  lemma {:induction false} AncestorIsStored(db: DB, h: Header, n: nat)
    requires Sane(db) && FindHeader(db, h.hash, h.number) == Some(h)
    ensures AncestorAt(db, h, n).Some? ==> FindHeader(db, AncestorAt(db, h, n).value.hash, n) == AncestorAt(db, h, n)
    decreases h.number
  {
    if h.number > n && Parent(db, h).Some? {
      assert Keyed(db, h.parentHash, h.number - 1);
      AncestorIsStored(db, Parent(db, h).value, n);
    }
  }

  ghost function HeadHeader(s: State): Header
    requires Good(s)
  {
    s.db.headers[(s.headHeader, Top(s))]
  }

  /** Looking a number up in the index finds the head's ancestor at that height, and nothing above the head. */
  lemma {:induction false} LookupFindsAncestor(s: State, n: nat)
    requires Good(s)
    ensures AncestorAt(s.db, HeadHeader(s), n) ==
            if n in s.db.numberToHash then FindHeader(s.db, s.db.numberToHash[n], n) else None
    ensures AncestorAt(s.db, HeadHeader(s), n).Some? <==> n <= Top(s)
  {
    Stored(s, s.headHeader);
    StoredIsNoCollision(s.db, s.headHeader, Top(s));
    var head := HeadHeader(s);
    if n <= Top(s) {
      CanonicalAncestry(s.db, Top(s), head, n);
      AncestorIsStored(s.db, head, n);
    }
  }

  // ---------------------------------------------------------------------------------------
  // The block head
  // ---------------------------------------------------------------------------------------

  /** A block that is too light for the header head but not for the block head, and is not canonical. */
  predicate Loses(s: State, op: Op)
    requires s.headHeader in s.db.hashToNumber && s.headBlock in s.db.hashToNumber
  {
    && op.Put? && op.isBlock && op.valid && !op.proofOfStake && op.header.number > 0
    && HeadTD(s, s.headBlock) < NewTD(s.db, op.header) <= HeadTD(s, s.headHeader)
    && !OnChain(s.db, op.header)
  }

  /** The block head is meant always to be canonical (blockchain.ts:69-74). An operation keeps it so exactly
      when it does not put a block as above. */
  lemma {:induction false} BlockHeadExactly(s: State, op: Op)
    requires Good(s) && Legal(s, op) && Canonical(s.db, s.headBlock)
    ensures Canonical(Step(s, op).db, Step(s, op).headBlock) <==> !Loses(s, op)
  {
    match op
    case Put(h, isBlock, valid, proofOfStake) => BlockHeadAfterPut(s, h, isBlock, valid, proofOfStake);
    case Reset(number) =>
      if ResetResult(s, number).Some? {
        CutIsGood(s, number + 1);
      }
    case Delete(hash) => BlockHeadAfterDelete(s, hash);
    case SetHead(_, _) =>
  }

  lemma {:induction false} BlockHeadAfterPut(s: State, h: Header, isBlock: bool, valid: bool, proofOfStake: bool)
    requires Good(s) && NoCollision(s.db, h) && Canonical(s.db, s.headBlock)
    ensures var op := Put(h, isBlock, valid, proofOfStake);
            Canonical(Step(s, op).db, Step(s, op).headBlock) <==> !Loses(s, op)
  {
    if h.number > 0 && valid {
      PutAsideIsGood(s, h);
      if Joint(s.db, h).Some? {
        RedirectedIsCanonical(s, h, s.headBlock);
        NewlyCanonical(s, h, h.number);
        NewIndexLinked(s.db, Top(s), h);
      }
    }
  }

  lemma {:induction false} BlockHeadAfterDelete(s: State, hash: Hash)
    requires Good(s) && Legal(s, Delete(hash)) && Canonical(s.db, s.headBlock)
    ensures Canonical(Step(s, Delete(hash)).db, Step(s, Delete(hash)).headBlock)
  {
    if hash in s.db.hashToNumber {
      var number := s.db.hashToNumber[hash];
      Stored(s, hash);
      var h := s.db.headers[(hash, number)];
      var s' := DeleteResult(s, hash).value;
      if Canonical(s.db, hash) {
        CanonicalParent(s, hash);
        assert Linked(s.db, number - 1) && Keyed(s.db, h.parentHash, number - 1);
        assert !Gone(s.db, h, h.parentHash, number - 1);
      }
      assert s'.headBlock in s.db.hashToNumber && !Gone(s.db, h, s'.headBlock, s.db.hashToNumber[s'.headBlock]);
    }
  }

  /** No operation of a run loses the block head. */
  ghost predicate NeverLoses(s: State, ops: seq<Op>)
    requires Good(s) && LegalRun(s, ops)
    decreases |ops|
  {
    ops == [] || (StepIsGood(s, ops[0]); !Loses(s, ops[0]) && NeverLoses(Step(s, ops[0]), ops[1..]))
  }

  /** The block head is canonical before, during and after a run. */
  ghost predicate BlockHeadStays(s: State, ops: seq<Op>)
    requires Good(s) && LegalRun(s, ops)
    decreases |ops|
  {
    && Canonical(s.db, s.headBlock)
    && (ops == [] || (StepIsGood(s, ops[0]); BlockHeadStays(Step(s, ops[0]), ops[1..])))
  }

  /** The block head is canonical all along a run exactly when no operation loses it. */
  lemma {:induction false} BlockHeadRun(s: State, ops: seq<Op>)
    requires Good(s) && LegalRun(s, ops) && Canonical(s.db, s.headBlock)
    ensures BlockHeadStays(s, ops) <==> NeverLoses(s, ops)
    decreases |ops|
  {
    if ops != [] {
      StepIsGood(s, ops[0]);
      BlockHeadExactly(s, ops[0]);
      if !Loses(s, ops[0]) {
        BlockHeadRun(Step(s, ops[0]), ops[1..]);
      }
    }
  }

  /** Where only blocks are put, never bare headers, no operation loses the block head: it is the header head. */
  lemma {:induction false} OneHead(s: State, ops: seq<Op>)
    requires Good(s) && LegalRun(s, ops) && s.headBlock == s.headHeader
    requires forall i | 0 <= i < |ops| :: ops[i].Put? ==> ops[i].isBlock
    ensures Run(s, ops).headBlock == Run(s, ops).headHeader
    ensures NeverLoses(s, ops)
    decreases |ops|
  {
    if ops != [] {
      StepIsGood(s, ops[0]);
      assert ops[0].Put? ==> ops[0].isBlock;
      StepKeepsOneHead(s, ops[0]);
      OneHead(Step(s, ops[0]), ops[1..]);
    }
  }

  lemma {:induction false} StepKeepsOneHead(s: State, op: Op)
    requires Good(s) && s.headBlock == s.headHeader && (op.Put? ==> op.isBlock)
    ensures Step(s, op).headBlock == Step(s, op).headHeader
  {}

  /** A heavy header followed by a lighter block does lose it. */
  lemma {:induction false} BlockHeadMayBeStale(g: Header, a: Header, b: Header)
    requires g == Header("g", "", 0, 1) && a == Header("a", "g", 1, 5) && b == Header("b", "g", 1, 3)
    ensures Good(Initial(g)) && Legal(Initial(g), Put(a, false, true, false))
    ensures var s := Step(Initial(g), Put(a, false, true, false));
            && Good(s) && Legal(s, Put(b, true, true, false))
            && var s' := Step(s, Put(b, true, true, false));
            Good(s') && s'.headBlock == "b" && !Canonical(s'.db, s'.headBlock)
  {
    InitialIsGood(g);
    var s0 := Initial(g);
    StepIsGood(s0, Put(a, false, true, false));
    assert OnChain(s0.db, g);
    assert Joint(s0.db, a) == Joint(s0.db, g) == Some(g);
    var s := Step(s0, Put(a, false, true, false));
    assert s == PutOnTop(s0, a, false);
    assert NewIndex(s0.db, a) == NewIndex(s0.db, g)[1 := "a"];
    assert Redirected(s0.db, g, a, "g") == "g";
    StepIsGood(s, Put(b, true, true, false));
  }

  // ---------------------------------------------------------------------------------------
  // A stale iterator head
  // ---------------------------------------------------------------------------------------

  /** Two blocks on top of the genesis block, and another one beside the first. */
  predicate Rivals(g: Header, a1: Header, a2: Header, b1: Header) {
    && g.number == 0 && a1.number == b1.number == 1 && a2.number == 2
    && a1.parentHash == b1.parentHash == g.hash && a2.parentHash == a1.hash
    && g.hash != a1.hash && g.hash != a2.hash && g.hash != b1.hash
    && a1.hash != a2.hash && a1.hash != b1.hash && a2.hash != b1.hash
  }

  /** An iterator at the second block of the chain. */
  ghost predicate Waiting(s: State, g: Header, a1: Header, a2: Header) {
    && Sane(s.db) && Good(s) && s.heads == map["vm" := a2.hash]
    && s.db.headers == map[(g.hash, 0) := g, (a1.hash, 1) := a1, (a2.hash, 2) := a2]
    && s.db.hashToNumber == map[g.hash := 0, a1.hash := 1, a2.hash := 2]
    && s.db.numberToHash == map[0 := g.hash, 1 := a1.hash, 2 := a2.hash]
  }

  /** Under proof of stake a header that is put is the new head, here on top of a known joint. */
  lemma {:induction false} PutsOnTop(s: State, h: Header, joint: Header)
    requires Good(s) && NoCollision(s.db, h) && joint.number + 1 == h.number && !OnChain(s.db, h)
    requires Parent(s.db, h) == Some(joint) && OnChain(s.db, joint)
    ensures Joint(s.db, h) == Some(joint)
    ensures Step(s, Put(h, true, true, true)) == PutOnTop(s, h, true) && Good(PutOnTop(s, h, true))
    ensures NewIndex(s.db, h) == IndexBelow(s.db, h.number)[h.number := h.hash]
  {
    assert Joint(s.db, joint) == Some(joint);
    assert NewIndex(s.db, h) == NewIndex(s.db, joint)[h.number := h.hash];
    PutOnTopIsGood(s, h, true);
  }

  lemma {:induction false} SaneState(s: State)
    requires Good(s)
    ensures Sane(s.db)
  {}

  /** One block on top of the genesis block. */
  ghost predicate HasOne(s: State, g: Header, a1: Header) {
    && Good(s) && s.heads == map[]
    && s.db.headers == map[(g.hash, 0) := g, (a1.hash, 1) := a1]
    && s.db.hashToNumber == map[g.hash := 0, a1.hash := 1] && s.db.numberToHash == map[0 := g.hash, 1 := a1.hash]
  }

  lemma {:induction false} PutsFirst(g: Header, a1: Header, a2: Header, b1: Header)
    requires Rivals(g, a1, a2, b1)
    ensures Good(Initial(g)) && Legal(Initial(g), Put(a1, true, true, true))
    ensures HasOne(Step(Initial(g), Put(a1, true, true, true)), g, a1)
  {
    InitialIsGood(g);
    hide Good, Sane, Joint, NewIndex, PutResult, Step;
    PutsOnTop(Initial(g), a1, g);
  }

  lemma {:induction false} PutsSecond(s: State, g: Header, a1: Header, a2: Header, b1: Header)
    requires Rivals(g, a1, a2, b1) && HasOne(s, g, a1)
    ensures Legal(s, Put(a2, true, true, true))
    ensures var s' := Step(s, Put(a2, true, true, true));
            && Good(s') && Legal(s', SetHead("vm", a2.hash))
            && Waiting(Step(s', SetHead("vm", a2.hash)), g, a1, a2)
  {
    hide Good, Sane, Joint, NewIndex, PutResult, NewTD;
    PutsOnTop(s, a2, a1);
    SetHeadExactly(PutOnTop(s, a2, true), "vm", a2.hash);
    SaneState(Step(PutOnTop(s, a2, true), SetHead("vm", a2.hash)));
  }

  lemma {:induction false} AfterTwo(g: Header, a1: Header, a2: Header, b1: Header)
    requires Rivals(g, a1, a2, b1)
    ensures var ops := [Put(a1, true, true, true), Put(a2, true, true, true), SetHead("vm", a2.hash)];
            Good(Initial(g)) && LegalRun(Initial(g), ops) && Waiting(Run(Initial(g), ops), g, a1, a2)
  {
    hide Good, Legal, Waiting, Step, Initial;
    var a, b, c := Put(a1, true, true, true), Put(a2, true, true, true), SetHead("vm", a2.hash);
    PutsFirst(g, a1, a2, b1);
    var s1 := Step(Initial(g), a);
    PutsSecond(s1, g, a1, a2, b1);
    var s2 := Step(s1, b);
    StepIsGood(s2, c);
    assert Run(Step(s2, c), []) == Step(s2, c);
    RunOne(s2, c, []);
    RunOne(s1, b, [c]);
    RunOne(Initial(g), a, [b, c]);
    assert [a] + [b, c] == [a, b, c] && [b] + [c] == [b, c] && [c] + [] == [c];
  }

  /** The block beside the first takes over: the iterator is now at that block, where it has never been, and not
      back at the genesis block, the last one that both chains have. */
  lemma {:induction false} StaleHeadMovesOn(s: State, g: Header, a1: Header, a2: Header, b1: Header)
    requires Rivals(g, a1, a2, b1) && Waiting(s, g, a1, a2)
    ensures Legal(s, Put(b1, true, true, true)) && Joint(s.db, b1) == Some(g) && !Canonical(s.db, b1.hash)
    ensures var s' := Step(s, Put(b1, true, true, true));
            Good(s') && s'.heads == map["vm" := b1.hash] && s'.db.numberToHash == map[0 := g.hash, 1 := b1.hash]
  {
    hide Good, Sane, Joint, NewIndex, PutResult, Step;
    PutsOnTop(s, b1, g);
  }

  /** The same with four headers written out. */
  lemma {:induction false} StaleHeadRun(g: Header, a1: Header, a2: Header, b1: Header)
    requires g == Header("g", "", 0, 1) && a1 == Header("a1", "g", 1, 1)
    requires a2 == Header("a2", "a1", 2, 1) && b1 == Header("b1", "g", 1, 0)
    ensures var ops := [Put(a1, true, true, true), Put(a2, true, true, true), SetHead("vm", "a2")];
            && Good(Initial(g)) && LegalRun(Initial(g), ops)
            && var s := Run(Initial(g), ops);
            Joint(s.db, b1) == Some(g) && Step(s, Put(b1, true, true, true)).heads == map["vm" := "b1"]
  {
    hide Good, Legal, Sane, Waiting, Step, Initial, Joint;
    assert g.hash[0] != a1.hash[0] && g.hash[0] != a2.hash[0] && g.hash[0] != b1.hash[0];
    assert a1.hash[1] != a2.hash[1] && a1.hash[0] != b1.hash[0] && a2.hash[0] != b1.hash[0];
    AfterTwo(g, a1, a2, b1);
    var s := Run(Initial(g), [Put(a1, true, true, true), Put(a2, true, true, true), SetHead("vm", a2.hash)]);
    StaleHeadMovesOn(s, g, a1, a2, b1);
  }

  lemma {:induction false} RunOne(s: State, op: Op, rest: seq<Op>)
    requires Good(s) && Legal(s, op)
    ensures Good(Step(s, op))
    ensures LegalRun(Step(s, op), rest) ==>
              LegalRun(s, [op] + rest) && Run(s, [op] + rest) == Run(Step(s, op), rest)
  {
    StepIsGood(s, op);
    assert ([op] + rest)[1..] == rest;
  }

  // ---------------------------------------------------------------------------------------
  // The heaviest chain
  // ---------------------------------------------------------------------------------------

  /** The sum of the difficulties from a header back to where its ancestry stops. */
  ghost function Weight(db: DB, h: Header): nat
    requires Sane(db)
    decreases h.number
  {
    if Parent(db, h).None? then h.difficulty
    else
      assert Keyed(db, h.parentHash, h.number - 1);
      h.difficulty + Weight(db, Parent(db, h).value)
  }

  /** The parent of every stored block is stored, down to the one genesis block, and every total difficulty
      is that of the parent plus the block's own. */
  ghost predicate Weighed(s: State) {
    forall hash, n {:trigger WeighedAt(s, hash, n)} :: (hash, n) in s.db.headers ==> WeighedAt(s, hash, n)
  }

  ghost predicate WeighedAt(s: State, hash: Hash, n: nat)
    requires (hash, n) in s.db.headers
  {
    var h := s.db.headers[(hash, n)];
    && (hash, n) in s.db.td
    && if n == 0 then hash == s.genesis.hash && s.db.td[(hash, n)] == h.difficulty
       else (h.parentHash, n - 1) in s.db.headers && (h.parentHash, n - 1) in s.db.td
            && s.db.td[(hash, n)] == h.difficulty + s.db.td[(h.parentHash, n - 1)]
  }

  /** No stored block is heavier than the head. */
  ghost predicate Heaviest(s: State)
    requires s.headHeader in s.db.hashToNumber
  {
    forall hash, n :: (hash, n) in s.db.headers ==> TotalDifficulty(s.db, hash, n) <= HeadTD(s, s.headHeader)
  }

  /** Stored total difficulties are sums of difficulties back to the genesis block. */
  lemma {:induction false} TotalIsWeight(s: State, hash: Hash, n: nat)
    requires Good(s) && Weighed(s) && (hash, n) in s.db.headers
    ensures TotalDifficulty(s.db, hash, n) == Weight(s.db, s.db.headers[(hash, n)])
    ensures AncestorAt(s.db, s.db.headers[(hash, n)], 0) == Some(s.genesis)
    decreases n
  {
    assert WeighedAt(s, hash, n) && Keyed(s.db, hash, n);
    if n > 0 {
      TotalIsWeight(s, s.db.headers[(hash, n)].parentHash, n - 1);
    }
  }

  /** Where every parent is stored, the walk back always gets to the canonical chain. */
  lemma {:induction false} AlwaysJoined(s: State, h: Header)
    requires Good(s) && Weighed(s) && Parent(s.db, h).Some?
    ensures Joint(s.db, h).Some?
    decreases h.number
  {
    var p := Parent(s.db, h).value;
    assert WeighedAt(s, h.parentHash, h.number - 1) && Keyed(s.db, h.parentHash, h.number - 1);
    if h.number - 1 > 0 {
      AlwaysJoined(s, p);
    } else {
      assert OnChain(s.db, p);
    }
  }

  /** A block that was stored already keeps its total difficulty. */
  lemma {:induction false} SameWeights(s: State, h: Header, hash: Hash, n: nat)
    requires Good(s) && Weighed(s) && NoCollision(s.db, h) && Parent(s.db, h).Some? && (hash, n) in s.db.headers
    ensures var db' := WithHeader(s.db, h);
            && (hash, n) in s.db.td && (hash, n) in db'.td && db'.td[(hash, n)] == s.db.td[(hash, n)]
            && (hash, n) in db'.headers && db'.headers[(hash, n)] == s.db.headers[(hash, n)]
  {
    assert WeighedAt(s, hash, n) && Keyed(s.db, hash, n);
    assert WeighedAt(s, h.parentHash, h.number - 1);
  }

  /** The new tables, whatever the index. */
  ghost predicate HasTables(s': State, s: State, h: Header)
    requires h.number > 0
  {
    var db' := WithHeader(s.db, h);
    s'.genesis == s.genesis && s'.db.headers == db'.headers && s'.db.td == db'.td
      && s'.db.hashToNumber == db'.hashToNumber
  }

  lemma {:induction false} StillWeighed(s: State, h: Header, s': State)
    requires Good(s) && Weighed(s) && NoCollision(s.db, h) && Parent(s.db, h).Some? && HasTables(s', s, h)
    ensures Weighed(s')
  {
    forall hash, n | (hash, n) in s'.db.headers ensures WeighedAt(s', hash, n) {
      SameWeights(s, h, h.parentHash, h.number - 1);
      if (hash, n) != (h.hash, h.number) {
        SameWeights(s, h, hash, n);
        assert WeighedAt(s, hash, n);
        if n > 0 {
          SameWeights(s, h, s.db.headers[(hash, n)].parentHash, n - 1);
        }
      }
    }
  }

  lemma {:induction false} StillHeaviest(s: State, h: Header, s': State)
    requires Good(s) && Weighed(s) && Heaviest(s) && NoCollision(s.db, h) && Parent(s.db, h).Some?
             && HasTables(s', s, h)
    requires s'.headHeader == if NewTD(s.db, h) > HeadTD(s, s.headHeader) then h.hash else s.headHeader
    ensures s'.headHeader in s'.db.hashToNumber && Heaviest(s')
  {
    Stored(s, s.headHeader);
    SameWeights(s, h, s.headHeader, Top(s));
    forall hash, n | (hash, n) in s'.db.headers ensures TotalDifficulty(s'.db, hash, n) <= HeadTD(s', s'.headHeader) {
      if (hash, n) != (h.hash, h.number) {
        SameWeights(s, h, hash, n);
      }
    }
  }

  /** Putting a valid proof-of-work block whose parent is stored never fails, and keeps the head the heaviest
      block; it becomes the head exactly when it is strictly heavier, so a tie keeps the incumbent. */
  lemma {:induction false} PutKeepsHeaviest(s: State, h: Header, isBlock: bool)
    requires Good(s) && Weighed(s) && Heaviest(s) && NoCollision(s.db, h) && Parent(s.db, h).Some?
    ensures PutResult(s, h, isBlock, true, false).Some?
    ensures var s' := PutResult(s, h, isBlock, true, false).value;
            && Good(s') && Weighed(s') && Heaviest(s')
            && s'.headHeader == (if NewTD(s.db, h) > HeadTD(s, s.headHeader) then h.hash else s.headHeader)
            && TotalDifficulty(s'.db, h.hash, h.number) == NewTD(s.db, h)
  {
    AlwaysJoined(s, h);
    PutIsGood(s, h, isBlock, true, false);
    var s' := PutResult(s, h, isBlock, true, false).value;
    StillWeighed(s, h, s');
    StillHeaviest(s, h, s');
  }

  /** Each header is new or known, and its parent is stored when it is put. */
  ghost predicate PowRun(s: State, headers: seq<Header>)
    requires Good(s) && Weighed(s) && Heaviest(s)
    decreases |headers|
  {
    headers == [] ||
    (NoCollision(s.db, headers[0]) && Parent(s.db, headers[0]).Some? &&
     (PutKeepsHeaviest(s, headers[0], true); PowRun(PutResult(s, headers[0], true, true, false).value, headers[1..])))
  }

  ghost function PutAll(s: State, headers: seq<Header>): (r: State)
    requires Good(s) && Weighed(s) && Heaviest(s) && PowRun(s, headers)
    ensures Good(r) && Weighed(r) && Heaviest(r)
    decreases |headers|
  {
    if headers == [] then s
    else
      PutKeepsHeaviest(s, headers[0], true);
      PutAll(PutResult(s, headers[0], true, true, false).value, headers[1..])
  }

  /** After any proof-of-work run of `putBlock` the head has at least the weight of every stored block, weights
      are sums of difficulties, and the block head is the header head. */
  lemma {:induction false} HeaviestChain(genesis: Header, headers: seq<Header>, hash: Hash, n: nat)
    requires genesis.number == 0
    ensures var s := Initial(genesis);
            Good(s) && Weighed(s) && Heaviest(s)
    ensures PowRun(Initial(genesis), headers) ==>
              var s := PutAll(Initial(genesis), headers);
              && s.headBlock == s.headHeader
              && ((hash, n) in s.db.headers ==>
                    Weight(s.db, s.db.headers[(hash, n)]) <= Weight(s.db, s.db.headers[(s.headHeader, Top(s))]))
  {
    var s := Initial(genesis);
    InitialIsGood(genesis);
    assert WeighedAt(s, genesis.hash, 0);
    if PowRun(s, headers) {
      BlocksKeepOneHead(s, headers);
      var r := PutAll(s, headers);
      Stored(r, r.headHeader);
      TotalIsWeight(r, r.headHeader, Top(r));
      if (hash, n) in r.db.headers {
        TotalIsWeight(r, hash, n);
      }
    }
  }

  lemma {:induction false} BlocksKeepOneHead(s: State, headers: seq<Header>)
    requires Good(s) && Weighed(s) && Heaviest(s) && PowRun(s, headers) && s.headBlock == s.headHeader
    ensures PutAll(s, headers).headBlock == PutAll(s, headers).headHeader
    decreases |headers|
  {
    if headers != [] {
      PutKeepsHeaviest(s, headers[0], true);
      StepKeepsOneHead(s, Put(headers[0], true, true, false));
      BlocksKeepOneHead(PutResult(s, headers[0], true, true, false).value, headers[1..]);
    }
  }
}
