/** The state of `packages/blockchain/src/blockchain.ts` as a value, and what each operation makes of it. */
module Chain {
  import opened Wrappers

  type Hash = string

  datatype Header = Header(hash: Hash, parentHash: Hash, number: nat, difficulty: nat)

  /** The tables of the database that matter here; heads are kept in memory. */
  datatype DB = DB(headers: map<(Hash, nat), Header>, td: map<(Hash, nat), nat>,
                   hashToNumber: map<Hash, nat>, numberToHash: map<nat, Hash>)

  datatype DBOp =
    | SetTD(hash: Hash, number: nat, td: nat)
    | SetHeader(header: Header)
    | SetHashToNumber(hash: Hash, number: nat)
    | SetNumberToHash(number: nat, hash: Hash)
    | DelHeader(hash: Hash, number: nat)
    | DelTD(hash: Hash, number: nat)
    | DelHashToNumber(hash: Hash)
    | DelNumberToHash(number: nat)

  function ApplyOp(db: DB, op: DBOp): DB {
    match op
    case SetTD(hash, number, td) => db.(td := db.td[(hash, number) := td])
    case SetHeader(header) => db.(headers := db.headers[(header.hash, header.number) := header])
    case SetHashToNumber(hash, number) => db.(hashToNumber := db.hashToNumber[hash := number])
    case SetNumberToHash(number, hash) => db.(numberToHash := db.numberToHash[number := hash])
    case DelHeader(hash, number) => db.(headers := db.headers - {(hash, number)})
    case DelTD(hash, number) => db.(td := db.td - {(hash, number)})
    case DelHashToNumber(hash) => db.(hashToNumber := db.hashToNumber - {hash})
    case DelNumberToHash(number) => db.(numberToHash := db.numberToHash - {number})
  }

  /** All queued operations at once; nothing is read in between. */
  function Batch(db: DB, ops: seq<DBOp>): DB {
    if ops == [] then db else ApplyOp(Batch(db, ops[..|ops| - 1]), ops[|ops| - 1])
  }

  lemma {:induction false} BatchOne(db: DB, ops: seq<DBOp>, op: DBOp)
    ensures Batch(db, ops + [op]) == ApplyOp(Batch(db, ops), op)
  {
    assert (ops + [op])[..|ops|] == ops;
  }

  datatype State = State(genesis: Header, db: DB, heads: map<string, Hash>, headHeader: Hash, headBlock: Hash)

  // ---------------------------------------------------------------------------------------
  // Reading
  // ---------------------------------------------------------------------------------------

  /** A total difficulty that is not stored reads as 0. */
  function TotalDifficulty(db: DB, hash: Hash, number: nat): nat {
    if (hash, number) in db.td then db.td[(hash, number)] else 0
  }

  function FindHeader(db: DB, hash: Hash, number: nat): Option<Header> {
    if (hash, number) in db.headers then Some(db.headers[(hash, number)]) else None
  }

  /** Every header is stored under its own hash and number, and found by its hash alone. */
  ghost predicate Sane(db: DB) {
    && (forall hash, number :: (hash, number) in db.headers ==> Keyed(db, hash, number))
    && (forall hash :: hash in db.hashToNumber ==> (hash, db.hashToNumber[hash]) in db.headers)
  }

  ghost predicate Keyed(db: DB, hash: Hash, number: nat)
    requires (hash, number) in db.headers
  {
    && db.headers[(hash, number)].hash == hash && db.headers[(hash, number)].number == number
    && hash in db.hashToNumber && db.hashToNumber[hash] == number
  }

  predicate Canonical(db: DB, hash: Hash) {
    hash in db.hashToNumber && db.hashToNumber[hash] in db.numberToHash
      && db.numberToHash[db.hashToNumber[hash]] == hash
  }

  /** The parent of a stored or new header. */
  function Parent(db: DB, h: Header): Option<Header> {
    if h.number == 0 then None else FindHeader(db, h.parentHash, h.number - 1)
  }

  // ---------------------------------------------------------------------------------------
  // The canonical chain
  // ---------------------------------------------------------------------------------------

  /** Blocks 0 to `top` are indexed, each stored, and each the parent of the next. */
  ghost predicate Indexed(db: DB, top: nat) {
    && (forall n: nat :: n in db.numberToHash <==> n <= top)
    && (forall n: nat :: n <= top ==> Linked(db, n))
  }

  ghost predicate Linked(db: DB, n: nat) {
    && n in db.numberToHash && (db.numberToHash[n], n) in db.headers
    && (n > 0 ==> n - 1 in db.numberToHash && db.headers[(db.numberToHash[n], n)].parentHash == db.numberToHash[n - 1])
  }

  ghost function Top(s: State): nat
    requires s.headHeader in s.db.hashToNumber
  {
    s.db.hashToNumber[s.headHeader]
  }

  /** The canonical chain invariant. */
  ghost predicate Good(s: State) {
    && Sane(s.db) && s.genesis.number == 0
    && Canonical(s.db, s.headHeader) && Indexed(s.db, Top(s))
    && s.db.numberToHash[0] == s.genesis.hash && FindHeader(s.db, s.genesis.hash, 0) == Some(s.genesis)
    && (forall name :: name in s.heads ==> Canonical(s.db, s.heads[name]))
    && s.headBlock in s.db.hashToNumber
  }

  // ---------------------------------------------------------------------------------------
  // Where a new header meets the canonical chain
  // ---------------------------------------------------------------------------------------

  predicate OnChain(db: DB, h: Header) {
    h.number in db.numberToHash && db.numberToHash[h.number] == h.hash
  }

  /** Walking back from a header to the first canonical block, if the walk gets there. */
  ghost function Joint(db: DB, h: Header): (j: Option<Header>)
    requires Sane(db)
    ensures j.Some? ==> OnChain(db, j.value) && j.value.number <= h.number
    decreases h.number
  {
    if OnChain(db, h) then Some(h)
    else if Parent(db, h).None? then None
    else
      assert Keyed(db, h.parentHash, h.number - 1);
      Joint(db, Parent(db, h).value)
  }

  /** The ancestor of a header (or the header itself) at a height. */
  ghost function AncestorAt(db: DB, h: Header, n: nat): (a: Option<Header>)
    requires Sane(db)
    ensures a.Some? ==> a.value.number == n
    decreases h.number
  {
    if h.number == n then Some(h)
    else if h.number < n || Parent(db, h).None? then None
    else
      assert Keyed(db, h.parentHash, h.number - 1);
      AncestorAt(db, Parent(db, h).value, n)
  }

  /** The joint is the highest block that is both canonical and an ancestor of the header, or the header
      itself; there is none when the walk does not get to the canonical chain. */
  lemma {:induction false} JointIsHighest(db: DB, h: Header, n: nat)
    requires Sane(db)
    ensures var j := Joint(db, h);
            && (j.Some? ==> AncestorAt(db, h, j.value.number) == j)
            && (AncestorAt(db, h, n).Some? && OnChain(db, AncestorAt(db, h, n).value) ==>
                  j.Some? && n <= j.value.number)
    decreases h.number
  {
    if !OnChain(db, h) && Parent(db, h).Some? {
      assert Keyed(db, h.parentHash, h.number - 1);
      JointIsHighest(db, Parent(db, h).value, n);
    }
  }

  /** The index once `h` is the head: its ancestry, and nothing above it. */
  ghost function NewIndex(db: DB, h: Header): (index: map<nat, Hash>)
    requires Sane(db) && Joint(db, h).Some?
    decreases h.number
  {
    if OnChain(db, h) then map n | n in db.numberToHash && n <= h.number :: db.numberToHash[n]
    else
      assert Keyed(db, h.parentHash, h.number - 1);
      NewIndex(db, Parent(db, h).value)[h.number := h.hash]
  }

  /** What becomes of a head when the chain above `joint` is replaced and ends at `h`: above the new end
      it goes to the new end, and on the replaced part it goes back to the joint. */
  ghost function Redirected(db: DB, joint: Header, h: Header, hash: Hash): Hash {
    if !Canonical(db, hash) then hash
    else if db.hashToNumber[hash] > h.number then h.hash
    else if db.hashToNumber[hash] > joint.number then joint.hash
    else hash
  }

  // ---------------------------------------------------------------------------------------
  // Operations
  // ---------------------------------------------------------------------------------------

  datatype Op =
    | Put(header: Header, isBlock: bool, valid: bool, proofOfStake: bool)
    | Reset(number: nat)
    | Delete(hash: Hash)
    | SetHead(tag: string, head: Hash)

  /** The total difficulty a header gets when it is put. */
  function NewTD(db: DB, h: Header): nat
    requires h.number > 0
  {
    h.difficulty + TotalDifficulty(db, h.parentHash, h.number - 1)
  }

  function HeadTD(s: State, hash: Hash): nat
    requires hash in s.db.hashToNumber
  {
    TotalDifficulty(s.db, hash, s.db.hashToNumber[hash])
  }

  /** The tables once a header has been put off the canonical chain. */
  ghost function WithHeader(db: DB, h: Header): DB
    requires h.number > 0
  {
    DB(db.headers[(h.hash, h.number) := h], db.td[(h.hash, h.number) := NewTD(db, h)],
       db.hashToNumber[h.hash := h.number], db.numberToHash)
  }

  /** `_putBlockOrHeader`; nothing when it throws. */
  ghost function PutResult(s: State, h: Header, isBlock: bool, valid: bool, proofOfStake: bool): Option<State>
    requires Good(s)
  {
    if h.number == 0 then (if h.hash == s.genesis.hash then Some(s) else None)
    else if !valid then None
    else if NewTD(s.db, h) > HeadTD(s, s.headHeader) || proofOfStake then
      if Joint(s.db, h).None? then None else Some(PutOnTop(s, h, isBlock))
    else
      Some(s.(db := WithHeader(s.db, h),
              headBlock := if NewTD(s.db, h) > HeadTD(s, s.headBlock) && isBlock then h.hash else s.headBlock))
  }

  ghost function PutOnTop(s: State, h: Header, isBlock: bool): State
    requires Good(s) && h.number > 0 && Joint(s.db, h).Some?
  {
    var joint := Joint(s.db, h).value;
    s.(db := WithHeader(s.db, h).(numberToHash := NewIndex(s.db, h)),
       heads := map name | name in s.heads :: Redirected(s.db, joint, h, s.heads[name]),
       headHeader := h.hash,
       headBlock := if isBlock then h.hash else Redirected(s.db, joint, h, s.headBlock))
  }

  /** The index up to a number, not included. */
  ghost function IndexBelow(db: DB, number: nat): map<nat, Hash> {
    map n | n in db.numberToHash && n < number :: db.numberToHash[n]
  }

  /** A hash that is canonical at `number` or above is replaced. */
  ghost function CutBack(db: DB, number: nat, hash: Hash, to: Hash): Hash {
    if Canonical(db, hash) && db.hashToNumber[hash] >= number then to else hash
  }

  ghost function HeadsCutBack(s: State, number: nat, to: Hash): State {
    s.(heads := map name | name in s.heads :: CutBack(s.db, number, s.heads[name], to),
       headHeader := CutBack(s.db, number, s.headHeader, to), headBlock := CutBack(s.db, number, s.headBlock, to))
  }

  /** `resetCanonicalHead`. */
  ghost function ResetResult(s: State, number: nat): Option<State> {
    if number !in s.db.numberToHash then None
    else Some(HeadsCutBack(s, number + 1,
                           s.db.numberToHash[number]).(db := s.db.(numberToHash := IndexBelow(s.db, number + 1))))
  }

  /** The blocks that go together with a block: the canonical ones above it, if it is canonical. */
  ghost predicate Gone(db: DB, h: Header, hash: Hash, number: nat) {
    if OnChain(db, h) then number >= h.number && number in db.numberToHash && db.numberToHash[number] == hash
    else hash == h.hash && number == h.number
  }

  ghost function WithoutBlocks(db: DB, h: Header): DB {
    DB(map key | key in db.headers && !Gone(db, h, key.0, key.1) :: db.headers[key],
       map key | key in db.td && !Gone(db, h, key.0, key.1) :: db.td[key],
       map hash | hash in db.hashToNumber && !Gone(db, h, hash, db.hashToNumber[hash]) :: db.hashToNumber[hash],
       if OnChain(db, h) then IndexBelow(db, h.number) else db.numberToHash)
  }

  /** `_delBlock`. */
  ghost function DeleteResult(s: State, hash: Hash): Option<State>
    requires Sane(s.db)
  {
    if hash !in s.db.hashToNumber then None
    else
      var h := s.db.headers[(hash, s.db.hashToNumber[hash])];
      var s' := if OnChain(s.db, h) then HeadsCutBack(s, h.number, h.parentHash) else s;
      Some(s'.(db := WithoutBlocks(s.db, h)))
  }
}
