/** Tries in a key-value store: when a stored trie resolves, and what writing a node does to that. */
module MptStore {
  import opened Rlp
  import opened Trie
  import opened Wrappers
  import opened MptNode
  import opened MptPath

  type DB = map<Bytes, Bytes>

  /** With pruning off only puts are ever queued. */
  datatype BatchOp = PutOp(key: Bytes, value: Bytes)

  function Batch(db: DB, ops: seq<BatchOp>): DB {
    if ops == [] then db
    else Batch(db, ops[..|ops| - 1])[ops[|ops| - 1].key := ops[|ops| - 1].value]
  }

  datatype Lookup = Present(node: Node) | Missing | Invalid

  /** `decodeMPTNode`. */
  function DecodeNode(encoded: Bytes): Lookup {
    match DecodeOf(encoded)
    case Err(_) => Invalid
    case Ok((raw, rest)) =>
      if rest != [] then Invalid
      else
        match DecodeRaw(raw)
        case None => Invalid
        case Some(n) => Present(n)
  }

  /** `lookupNode`: a raw node is read in place, a hash is looked up. */
  function LookupNode(db: DB, ref: Item): Lookup {
    match ref
    case List(_) => (match DecodeRaw(ref) case None => Invalid case Some(n) => Present(n))
    case Str(hash) => if hash in db then DecodeNode(db[hash]) else Missing
  }

  /** `_formatNode` without pruning: the reference, and the operations it queues. */
  function FormatNode(h: Hash, node: Node, topLevel: bool): (r: (Item, seq<BatchOp>)) {
    var encoded := Serialize(node);
    if |encoded| >= 32 || topLevel then (Str(h(encoded)), [PutOp(h(encoded), encoded)])
    else (Raw(node), [])
  }

  // ---------------------------------------------------------------------------------------
  // What is stored
  // ---------------------------------------------------------------------------------------

  /** Every reference below (and to) this subtree resolves. */
  ghost predicate Stored(h: Hash, db: DB, t: Tree)
    decreases t, 1
  {
    t.Nil? || ((|Enc(h, t)| >= 32 ==> Has(h, db, Enc(h, t))) && KidsStored(h, db, t))
  }

  ghost predicate KidsStored(h: Hash, db: DB, t: Tree)
    requires !t.Nil?
    decreases t, 0
  {
    match t
    case Leaf(_, _) => true
    case Ext(_, child) => Stored(h, db, child)
    case Branch(cs, _) => forall i | 0 <= i < |cs| :: Stored(h, db, cs[i])
  }

  ghost predicate Has(h: Hash, db: DB, encoded: Bytes) {
    h(encoded) in db && db[h(encoded)] == encoded
  }

  /** The store holds the trie under its root; the root of the empty trie is not in the store. */
  ghost predicate RootStored(h: Hash, db: DB, t: Tree) {
    t.Nil? || (Has(h, db, Enc(h, t)) && KidsStored(h, db, t))
  }

  ghost predicate SiblingsStored(h: Hash, db: DB, frames: seq<Frame>) {
    forall i | 0 <= i < |frames| :: SiblingStored(h, db, frames[i])
  }

  ghost predicate SiblingStored(h: Hash, db: DB, f: Frame) {
    f.BranchFrame? ==> forall j | 0 <= j < |f.children| && j != f.index :: Stored(h, db, f.children[j])
  }

  ghost predicate OpOk(h: Hash, universe: iset<Bytes>, key: Bytes, value: Bytes) {
    key == h(value) && value in universe && value != RLP_EMPTY_STRING
  }

  /** Everything is stored under its own hash. */
  ghost predicate DbOk(h: Hash, universe: iset<Bytes>, db: DB) {
    forall key :: key in db ==> OpOk(h, universe, key, db[key])
  }

  ghost predicate OpsOk(h: Hash, universe: iset<Bytes>, ops: seq<BatchOp>) {
    forall i | 0 <= i < |ops| :: OpOk(h, universe, ops[i].key, ops[i].value)
  }

  ghost predicate Extends(db: DB, db': DB) {
    forall key :: key in db ==> key in db' && db'[key] == db[key]
  }

  /** Writing never loses or changes anything, so every earlier root stays readable. */
  lemma {:induction false} BatchExtends(h: Hash, universe: iset<Bytes>, db: DB, ops: seq<BatchOp>)
    requires CollisionFree(h, universe) && DbOk(h, universe, db) && OpsOk(h, universe, ops)
    ensures DbOk(h, universe, Batch(db, ops)) && Extends(db, Batch(db, ops))
  {
    if ops != [] {
      var init, op := ops[..|ops| - 1], ops[|ops| - 1];
      BatchExtends(h, universe, db, init);
      var db' := Batch(db, init);
      assert op.key in db' ==> OpOk(h, universe, op.key, db'[op.key]) && OpOk(h, universe, op.key, op.value);
      assert op.key in db' ==> NoClash(h, universe, db'[op.key], op.value);
    }
  }

  lemma {:induction false} BatchConcat(db: DB, ops: seq<BatchOp>, more: seq<BatchOp>)
    ensures Batch(db, ops + more) == Batch(Batch(db, ops), more)
  {
    if more == [] {
      assert ops + more == ops;
    } else {
      assert (ops + more)[..|ops + more| - 1] == ops + more[..|more| - 1];
      BatchConcat(db, ops, more[..|more| - 1]);
    }
  }

  lemma {:induction false} StoredExtends(h: Hash, db: DB, db': DB, t: Tree)
    requires Extends(db, db')
    ensures Stored(h, db, t) ==> Stored(h, db', t)
    ensures !t.Nil? && KidsStored(h, db, t) ==> KidsStored(h, db', t)
  {
    match t
    case Nil =>
    case Leaf(_, _) =>
    case Ext(_, child) =>
      StoredExtends(h, db, db', child);
      assert KidsStored(h, db, t) ==> KidsStored(h, db', t);
    case Branch(cs, _) =>
      forall i | 0 <= i < |cs| ensures Stored(h, db, cs[i]) ==> Stored(h, db', cs[i]) {
        StoredExtends(h, db, db', cs[i]);
      }
      assert KidsStored(h, db, t) ==> KidsStored(h, db', t);
  }

  lemma {:induction false} SiblingsExtend(h: Hash, db: DB, db': DB, frames: seq<Frame>)
    requires Extends(db, db') && SiblingsStored(h, db, frames)
    ensures SiblingsStored(h, db', frames)
  {
    forall i | 0 <= i < |frames| ensures SiblingStored(h, db', frames[i]) {
      assert SiblingStored(h, db, frames[i]);
      if frames[i].BranchFrame? {
        forall j | 0 <= j < |frames[i].children| && j != frames[i].index
          ensures Stored(h, db', frames[i].children[j])
        {
          StoredExtends(h, db, db', frames[i].children[j]);
        }
      }
    }
  }

  // ---------------------------------------------------------------------------------------
  // Reading back
  // ---------------------------------------------------------------------------------------

  lemma {:induction false} DecodeNodeReads(n: Node)
    requires NodeOk(n) && |Serialize(n)| < TWO_64
    ensures DecodeNode(Serialize(n)) == Present(n)
  {
    DecodeAfterEncode(Raw(n), []);
    assert EncodeOf(Raw(n)) + [] == Serialize(n);
    DecodeRawRoundTrip(n);
  }

  /** A stored subtree is found under its reference. */
  lemma {:induction false} LookupFinds(h: Hash, universe: iset<Bytes>, db: DB, t: Tree)
    requires CollisionFree(h, universe) && Within(h, universe, t) && WF(t) && !t.Nil?
    requires Stored(h, db, t)
    ensures LookupNode(db, RefOf(h, t)) == Present(NodeOf(h, t))
  {
    var n := NodeOf(h, t);
    Distinct(h, universe, Enc(h, t), Enc(h, t));
    if |Serialize(n)| >= 32 {
      DecodeNodeReads(n);
    } else {
      DecodeRawRoundTrip(n);
    }
  }

  /** The root, found or missing. */
  lemma {:induction false} RootLookup(h: Hash, universe: iset<Bytes>, db: DB, t: Tree)
    requires CollisionFree(h, universe) && Within(h, universe, t) && WF(t)
    requires DbOk(h, universe, db) && RootStored(h, db, t)
    ensures LookupNode(db, Str(RootOf(h, t))) == if t.Nil? then Missing else Present(NodeOf(h, t))
    ensures RootOf(h, t) == h(RLP_EMPTY_STRING) <==> t.Nil?
  {
    var root := h(RLP_EMPTY_STRING);
    if root in db {
      Distinct(h, universe, db[root], RLP_EMPTY_STRING);
    }
    if !t.Nil? {
      Distinct(h, universe, Enc(h, t), RLP_EMPTY_STRING);
      DecodeNodeReads(NodeOf(h, t));
      NotEmptyString(NodeOf(h, t));
    }
  }

  // ---------------------------------------------------------------------------------------
  // Nodes and frames
  // ---------------------------------------------------------------------------------------

  /** The node agrees with the frame everywhere but in the hole. */
  ghost predicate Matches(h: Hash, n: Node, f: Frame) {
    match f
    case ExtFrame(key) => n.ExtNode? && n.nibbles == key
    case BranchFrame(cs, value, i) =>
      && n.BranchNode? && |n.branches| == |cs| == 16 && n.value == value
      && forall j | 0 <= j < 16 && j != i :: n.branches[j] == RefOf(h, cs[j])
  }

  ghost predicate AllMatch(h: Hash, nodes: seq<Node>, frames: seq<Frame>) {
    |nodes| == |frames| && forall i | 0 <= i < |nodes| :: Matches(h, nodes[i], frames[i])
  }

  /** Setting the hole: `value(lastRoot)` on an extension, `setBranch` on a branch. */
  function SetHole(n: Node, index: nibble, ref: Item): Node
    requires !n.LeafNode? && NodeOk(n)
  {
    if n.ExtNode? then n.(ref := ref) else n.(branches := n.branches[index := ref])
  }

  lemma {:induction false} FilledNode(h: Hash, n: Node, f: Frame, t: Tree)
    requires f.Ok() && Matches(h, n, f)
    ensures SetHole(n, if f.BranchFrame? then f.index else 0, RefOf(h, t)) == NodeOf(h, Fill(f, t))
  {
    if f.BranchFrame? {
      assert n.branches[f.index := RefOf(h, t)] == NodeOf(h, Fill(f, t)).branches;
    }
  }

  lemma {:induction false} FillMatches(h: Hash, f: Frame, t: Tree)
    requires f.Ok()
    ensures Matches(h, NodeOf(h, Fill(f, t)), f)
  {}

  lemma {:induction false} FillStored(h: Hash, db: DB, f: Frame, t: Tree)
    requires f.Ok()
    ensures KidsStored(h, db, Fill(f, t)) <==> Stored(h, db, t) && SiblingStored(h, db, f)
  {
    if f.BranchFrame? {
      var cs := f.children[f.index := t];
      assert cs[f.index] == t;
      assert forall j | 0 <= j < 16 && j != f.index :: cs[j] == f.children[j];
    }
  }

  lemma {:induction false} FillWithin(h: Hash, universe: iset<Bytes>, f: Frame, t: Tree)
    requires f.Ok() && Within(h, universe, Fill(f, t))
    ensures Within(h, universe, t)
    ensures Enc(h, Fill(f, t)) in universe
  {
    if f.BranchFrame? {
      assert f.children[f.index := t][f.index] == t;
    }
  }

  lemma {:induction false} PlugWithin(h: Hash, universe: iset<Bytes>, frames: seq<Frame>, t: Tree)
    requires AllOk(frames) && Within(h, universe, Plug(frames, t))
    ensures Within(h, universe, t)
  {
    if frames != [] {
      FillWithin(h, universe, frames[0], Plug(frames[1..], t));
      PlugWithin(h, universe, frames[1..], t);
    }
  }

  /** What is stored of a trie, seen along a path. */
  lemma {:induction false} PlugStored(h: Hash, db: DB, frames: seq<Frame>, t: Tree)
    requires AllOk(frames) && !t.Nil? && KidsStored(h, db, Plug(frames, t))
    ensures KidsStored(h, db, t) && SiblingsStored(h, db, frames)
  {
    if frames != [] {
      FillStored(h, db, frames[0], Plug(frames[1..], t));
      PlugStored(h, db, frames[1..], t);
      assert forall i | 1 <= i < |frames| :: frames[i] == frames[1..][i - 1];
    }
  }

  /** A formatted node and what it adds to the store. */
  lemma {:induction false} FormatStores(h: Hash, universe: iset<Bytes>, db: DB, ops: seq<BatchOp>, t: Tree,
                                        topLevel: bool)
    requires CollisionFree(h, universe) && DbOk(h, universe, db) && OpsOk(h, universe, ops)
    requires !t.Nil? && Enc(h, t) in universe && KidsStored(h, Batch(db, ops), t)
    ensures var (ref, more) := FormatNode(h, NodeOf(h, t), topLevel);
            && OpsOk(h, universe, ops + more)
            && Extends(Batch(db, ops), Batch(db, ops + more))
            && Stored(h, Batch(db, ops + more), t)
            && ref == (if topLevel then Str(RootOf(h, t)) else RefOf(h, t))
            && (topLevel ==> RootStored(h, Batch(db, ops + more), t))
  {
    var (ref, more) := FormatNode(h, NodeOf(h, t), topLevel);
    Distinct(h, universe, Enc(h, t), Enc(h, t));
    NotEmptyString(NodeOf(h, t));
    BatchExtends(h, universe, db, ops);
    BatchExtends(h, universe, Batch(db, ops), more);
    BatchConcat(db, ops, more);
    StoredExtends(h, Batch(db, ops), Batch(db, ops + more), t);
    if more != [] {
      assert more[..0] == [];
      assert Has(h, Batch(Batch(db, ops), more), Enc(h, t));
    }
  }
}
