/** What each operation does to the tables and to the pointers, for every block and every number. */
module ChainOps {
  import opened Wrappers
  import opened Chain
  import opened ChainLaws

  /** Where a pointer is after a cut at `number`: a canonical block from there on is replaced by `to`. */
  ghost predicate Moved(db: DB, number: nat, before: Hash, after: Hash, to: Hash) {
    after == if Canonical(db, before) && db.hashToNumber[before] >= number then to else before
  }

  /** All three kinds of pointers. */
  ghost predicate AllMoved(s: State, s': State, number: nat, to: Hash) {
    && s'.heads.Keys == s.heads.Keys
    && (forall name :: name in s.heads ==> Moved(s.db, number, s.heads[name], s'.heads[name], to))
    && Moved(s.db, number, s.headHeader, s'.headHeader, to) && Moved(s.db, number, s.headBlock, s'.headBlock, to)
  }

  // ---------------------------------------------------------------------------------------
  // Reset and set
  // ---------------------------------------------------------------------------------------

  /** Resetting to a number makes the canonical block there the head: the index is the old one up to it, pointers
      above go to it, and no block is lost. Above the head there is nothing to reset to. */
  lemma {:induction false} ResetDoes(s: State, n: nat, m: nat)
    requires Good(s)
    ensures n > Top(s) ==> ResetResult(s, n).None?
    ensures n <= Top(s) ==>
              && ResetResult(s, n).Some? && n in s.db.numberToHash
              && var s', at := ResetResult(s, n).value, s.db.numberToHash[n];
              && Good(s') && Top(s') == n && s'.headHeader == at
              && (m in s'.db.numberToHash <==> m <= n)
              && (m <= n ==> m in s.db.numberToHash && s'.db.numberToHash[m] == s.db.numberToHash[m])
              && AllMoved(s, s', n + 1, at)
              && s'.db == s.db.(numberToHash := s'.db.numberToHash) && s'.genesis == s.genesis
  {
    if n <= Top(s) {
      assert Linked(s.db, n);
      ResetIsGood(s, n);
      StoredIsNoCollision(s.db, s.db.numberToHash[n], n);
    }
  }

  /** Setting an iterator head sets that one and nothing else. */
  lemma {:induction false} SetHeadDoes(s: State, tag: string, head: Hash, other: string)
    requires Good(s)
    ensures var s' := Step(s, SetHead(tag, head));
            && tag in s'.heads && s'.heads[tag] == head && s' == s.(heads := s'.heads)
            && (other != tag ==> (other in s'.heads <==> other in s.heads)
                                 && (other in s.heads ==> s'.heads[other] == s.heads[other]))
  {
  }

  // ---------------------------------------------------------------------------------------
  // Put
  // ---------------------------------------------------------------------------------------

  /** Does it become the head? By weight under proof of work, a tie not being enough, and always under proof of
      stake. */
  ghost predicate Leads(s: State, h: Header, proofOfStake: bool)
    requires Good(s) && h.number > 0
  {
    proofOfStake || HeadTD(s, s.headHeader) < h.difficulty + TotalDifficulty(s.db, h.parentHash, h.number - 1)
  }

  /** A header is refused exactly when it is another genesis block, is not valid, or would lead and cannot be joined
      to the canonical chain; the genesis block may be put again. */
  lemma {:induction false} PutRefuses(s: State, h: Header, isBlock: bool, valid: bool, proofOfStake: bool)
    requires Good(s)
    ensures PutResult(s, h, isBlock, valid, proofOfStake).None? <==>
              if h.number == 0 then h.hash != s.genesis.hash
              else !valid || (Leads(s, h, proofOfStake) && Joint(s.db, h).None?)
    ensures h.number == 0 && h.hash == s.genesis.hash ==> PutResult(s, h, isBlock, valid, proofOfStake) == Some(s)
  {}

  /** Once accepted it is found, by hash and number, with the weight of its parent added to its own, and every other
      block is found as before. */
  lemma {:induction false} PutFinds(s: State, h: Header, isBlock: bool, valid: bool, proofOfStake: bool, hash: Hash,
                                    number: nat)
    requires Good(s) && h.number > 0 && PutResult(s, h, isBlock, valid, proofOfStake).Some?
    ensures var s' := PutResult(s, h, isBlock, valid, proofOfStake).value;
            && FindHeader(s'.db, h.hash, h.number) == Some(h)
            && TotalDifficulty(s'.db, h.hash, h.number) ==
               h.difficulty + TotalDifficulty(s.db, h.parentHash, h.number - 1)
            && h.hash in s'.db.hashToNumber && s'.db.hashToNumber[h.hash] == h.number
            && ((hash, number) != (h.hash, h.number) ==>
                  FindHeader(s'.db, hash, number) == FindHeader(s.db, hash, number)
                  && TotalDifficulty(s'.db, hash, number) == TotalDifficulty(s.db, hash, number))
            && (hash != h.hash ==> (hash in s'.db.hashToNumber <==> hash in s.db.hashToNumber)
                                   && (hash in s.db.hashToNumber ==>
                                         s'.db.hashToNumber[hash] == s.db.hashToNumber[hash]))
            && s'.genesis == s.genesis
  {}

  /** If it leads it is the head, and the index is its ancestry; if not, the index and the iterator heads stay. A block
      moves the block head with the header head, or by itself when it outweighs the block head alone. */
  lemma {:induction false} PutLeads(s: State, h: Header, isBlock: bool, valid: bool, proofOfStake: bool, n: nat)
    requires Good(s) && NoCollision(s.db, h) && h.number > 0
    requires PutResult(s, h, isBlock, valid, proofOfStake).Some?
    ensures var s', leads := PutResult(s, h, isBlock, valid, proofOfStake).value, Leads(s, h, proofOfStake);
            && s'.headHeader == (if leads then h.hash else s.headHeader)
            && (leads ==>
                  && (n in s'.db.numberToHash <==> n <= h.number)
                  && (n <= h.number ==> AncestorAt(s.db, h, n).Some?
                                        && s'.db.numberToHash[n] == AncestorAt(s.db, h, n).value.hash))
            && (!leads ==> s'.db.numberToHash == s.db.numberToHash && s'.heads == s.heads)
            && (isBlock && leads ==> s'.headBlock == h.hash)
            && (!leads ==>
                  s'.headBlock ==
                  if isBlock && HeadTD(s, s.headBlock) < TotalDifficulty(s'.db, h.hash, h.number) then h.hash
                  else s.headBlock)
  {
    if Leads(s, h, proofOfStake) {
      NewIndexIsAncestry(s.db, Top(s), h, n);
    }
  }

  // ---------------------------------------------------------------------------------------
  // Delete
  // ---------------------------------------------------------------------------------------

  /** Does deleting `h` take this block away? With a canonical block go all canonical blocks above it. */
  ghost predicate Goes(s: State, hash: Hash, other: Hash, number: nat)
    requires Good(s) && hash in s.db.hashToNumber
  {
    (other, number) == (hash, s.db.hashToNumber[hash])
    || (Canonical(s.db, hash) && number > s.db.hashToNumber[hash] && number in s.db.numberToHash
        && s.db.numberToHash[number] == other)
  }

  lemma {:induction false} GoesIsGone(s: State, hash: Hash, other: Hash, number: nat)
    requires Good(s) && hash in s.db.hashToNumber
    ensures var m := s.db.hashToNumber[hash];
            && (hash, m) in s.db.headers
            && (Goes(s, hash, other, number) <==> Gone(s.db, s.db.headers[(hash, m)], other, number))
  {
    Stored(s, hash);
  }

  /** Deleting a block takes exactly those blocks away: no header, no weight and no number is found for them any more,
      and everything is found for all others. A hash that is not known is refused. */
  lemma {:induction false} DeleteForgets(s: State, hash: Hash, other: Hash, number: nat)
    requires Good(s)
    ensures DeleteResult(s, hash).None? <==> hash !in s.db.hashToNumber
    ensures hash in s.db.hashToNumber ==>
              var s' := DeleteResult(s, hash).value;
              && FindHeader(s'.db, other, number) ==
                 (if Goes(s, hash, other, number) then None else FindHeader(s.db, other, number))
              && TotalDifficulty(s'.db, other, number) ==
                 (if Goes(s, hash, other, number) then 0 else TotalDifficulty(s.db, other, number))
              && (other in s'.db.hashToNumber <==>
                    other in s.db.hashToNumber && !Goes(s, hash, other, s.db.hashToNumber[other]))
              && (other in s'.db.hashToNumber ==> s'.db.hashToNumber[other] == s.db.hashToNumber[other])
  {
    if hash in s.db.hashToNumber {
      GoesIsGone(s, hash, other, number);
      if other in s.db.hashToNumber {
        GoesIsGone(s, hash, other, s.db.hashToNumber[other]);
      }
      hide Gone, Goes, Sane, Indexed;
    }
  }

  /** Deleting a canonical block makes its parent the head, and every pointer to a block that goes points to the
      parent; deleting another block leaves the index and the pointers. */
  lemma {:induction false} DeleteCuts(s: State, hash: Hash, n: nat)
    requires Good(s) && hash in s.db.hashToNumber && s.db.hashToNumber[hash] > 0
    ensures var s', m := DeleteResult(s, hash).value, s.db.hashToNumber[hash];
            && (!Canonical(s.db, hash) ==> s' == s.(db := s'.db) && s'.db.numberToHash == s.db.numberToHash)
            && (Canonical(s.db, hash) ==>
                  && m - 1 in s.db.numberToHash && s'.headHeader == s.db.numberToHash[m - 1]
                  && AllMoved(s, s', m, s.db.numberToHash[m - 1])
                  && (n in s'.db.numberToHash <==> n < m)
                  && (n < m ==> n in s.db.numberToHash && s'.db.numberToHash[n] == s.db.numberToHash[n]))
  {
    Stored(s, hash);
    if Canonical(s.db, hash) {
      CanonicalParent(s, hash);
    }
  }
}
