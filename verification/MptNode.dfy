/** Trie nodes as they are stored: `packages/mpt/src/node`, `util/hex.ts`, `util/nibbles.ts`, and
    `_formatNode` / `lookupNode` of `mpt.ts`. */
module MptNode {
  import opened Rlp
  import opened Trie
  import opened Wrappers

  /** A reference is an item: an empty string for "no child", a hash, or the raw node itself. */
  datatype Node =
    | LeafNode(nibbles: Nibbles, value: Bytes)
    | ExtNode(nibbles: Nibbles, ref: Item)
    | BranchNode(branches: seq<Item>, value: Bytes)

  type Hash = Bytes -> Bytes

  const NULL := Str([])

  // ---------------------------------------------------------------------------------------
  // Nibbles and the hex prefix
  // ---------------------------------------------------------------------------------------

  function BytesToNibbles(b: Bytes): (r: Nibbles)
    ensures |r| == 2 * |b|
  {
    if b == [] then [] else [b[0] / 16, b[0] % 16] + BytesToNibbles(b[1..])
  }

  function AddHexPrefix(key: Nibbles, terminator: bool): (r: Nibbles)
    ensures |r| % 2 == 0 && |r| >= 2
  {
    var flag: nibble := if terminator then 2 else 0;
    if |key| % 2 == 1 then [1 + flag] + key else [flag, 0] + key
  }

  function RemoveHexPrefix(val: Nibbles): Nibbles
    requires |val| >= 2
  {
    if val[0] % 2 == 1 then val[1..] else val[2..]
  }

  predicate IsTerminator(key: Nibbles)
    requires key != []
  {
    key[0] > 1
  }

  lemma {:induction false} HexPrefixRoundTrip(key: Nibbles, terminator: bool)
    ensures RemoveHexPrefix(AddHexPrefix(key, terminator)) == key
    ensures IsTerminator(AddHexPrefix(key, terminator)) == terminator
  {}

  lemma {:induction false} PackRoundTrip(n: Nibbles)
    requires |n| % 2 == 0
    ensures BytesToNibbles(HexToBytes(n)) == n
  {
    if n != [] {
      PackRoundTrip(n[2..]);
      var b: byte := n[0] as int * 16 + n[1];
      assert HexToBytes(n) == [b] + HexToBytes(n[2..]);
      assert b / 16 == n[0] && b % 16 == n[1];
      assert n == [n[0], n[1]] + n[2..];
    }
  }

  /** The other way round: unpacking bytes and packing the nibbles gives the bytes back. */
  lemma {:induction false} UnpackRoundTrip(b: Bytes)
    ensures HexToBytes(BytesToNibbles(b)) == b
  {
    if b != [] {
      UnpackRoundTrip(b[1..]);
      var n := BytesToNibbles(b);
      assert n[0] == b[0] / 16 && n[1] == b[0] % 16 && n[2..] == BytesToNibbles(b[1..]);
      assert b[0] == b[0] / 16 * 16 + b[0] % 16;
      assert b == [b[0]] + b[1..];
    }
  }

  lemma {:induction false} NibblesInjective(a: Bytes, b: Bytes)
    requires BytesToNibbles(a) == BytesToNibbles(b)
    ensures a == b
  {
    var m, n := BytesToNibbles(a), BytesToNibbles(b);
    if a != [] {
      assert |b| == |a|;
      assert m[0] == n[0] && m[1] == n[1];
      assert a[0] == 16 * (a[0] / 16) + a[0] % 16 && b[0] == 16 * (b[0] / 16) + b[0] % 16;
      assert m[2..] == n[2..];
      NibblesInjective(a[1..], b[1..]);
      assert a == [a[0]] + a[1..] && b == [b[0]] + b[1..];
    }
  }

  // ---------------------------------------------------------------------------------------
  // Raw form and serialization
  // ---------------------------------------------------------------------------------------

  function PackedKey(key: Nibbles, terminator: bool): Item {
    Str(HexToBytes(AddHexPrefix(key, terminator)))
  }

  /** `raw()`. */
  function Raw(n: Node): Item {
    match n
    case LeafNode(key, value) => List([PackedKey(key, true), Str(value)])
    case ExtNode(key, ref) => List([PackedKey(key, false), ref])
    case BranchNode(branches, value) => List(branches + [Str(value)])
  }

  function Serialize(n: Node): Bytes {
    EncodeOf(Raw(n))
  }

  /** `decodeRawMPTNode`; anything that is not a node is "Invalid node". */
  function DecodeRaw(raw: Item): Option<Node> {
    if raw.Str? then None
    else if |raw.items| == 17 && raw.items[16].Str? then
      Some(BranchNode(raw.items[..16], raw.items[16].data))
    else if |raw.items| == 2 && raw.items[0].Str? && raw.items[0].data != [] then
      var nibbles := BytesToNibbles(raw.items[0].data);
      var key := RemoveHexPrefix(nibbles);
      if !IsTerminator(nibbles) then Some(ExtNode(key, raw.items[1]))
      else if raw.items[1].Str? then Some(LeafNode(key, raw.items[1].data))
      else None
    else None
  }

  predicate NodeOk(n: Node) {
    n.BranchNode? ==> |n.branches| == 16
  }

  /** Reading a raw node back. */
  lemma {:induction false} DecodeRawRoundTrip(n: Node)
    requires NodeOk(n)
    ensures DecodeRaw(Raw(n)) == Some(n)
  {
    match n
    case LeafNode(key, value) => PackedKeyReadsBack(key, true);
    case ExtNode(key, ref) => PackedKeyReadsBack(key, false);
    case BranchNode(branches, value) =>
      assert (branches + [Str(value)])[..16] == branches;
  }

  lemma {:induction false} PackedKeyReadsBack(key: Nibbles, terminator: bool)
    ensures var nibbles := BytesToNibbles(PackedKey(key, terminator).data);
            && PackedKey(key, terminator).data != []
            && RemoveHexPrefix(nibbles) == key && IsTerminator(nibbles) == terminator
  {
    PackRoundTrip(AddHexPrefix(key, terminator));
    HexPrefixRoundTrip(key, terminator);
  }

  /** Different nodes have different serializations. */
  lemma {:induction false} SerializeInjective(m: Node, n: Node)
    requires NodeOk(m) && NodeOk(n)
    requires |Serialize(m)| < TWO_64 && Serialize(m) == Serialize(n)
    ensures m == n
  {
    EncodingIsPrefixFree(Raw(m), Raw(n), [], []);
    DecodeRawRoundTrip(m);
    DecodeRawRoundTrip(n);
  }

  // ---------------------------------------------------------------------------------------
  // From trees to nodes
  // ---------------------------------------------------------------------------------------

  /** What a parent stores for a subtree: `_formatNode` with `topLevel` off. */
  ghost function RefOf(h: Hash, t: Tree): Item
    decreases t, 1
  {
    if t.Nil? then NULL else Ref(h, NodeOf(h, t))
  }

  function Ref(h: Hash, n: Node): Item {
    if |Serialize(n)| >= 32 then Str(h(Serialize(n))) else Raw(n)
  }

  ghost function NodeOf(h: Hash, t: Tree): Node
    requires !t.Nil?
    decreases t, 0
  {
    match t
    case Leaf(key, value) => LeafNode(key, value)
    case Ext(key, child) => ExtNode(key, RefOf(h, child))
    case Branch(cs, value) => BranchNode(seq(|cs|, i requires 0 <= i < |cs| => RefOf(h, cs[i])), value)
  }

  ghost function Enc(h: Hash, t: Tree): Bytes
    requires !t.Nil?
  {
    Serialize(NodeOf(h, t))
  }

  const RLP_EMPTY_STRING: Bytes := [0x80]

  /** The root of a trie is a hash even where the node is small. */
  ghost function RootOf(h: Hash, t: Tree): Bytes {
    if t.Nil? then h(RLP_EMPTY_STRING) else h(Enc(h, t))
  }

  /** No two of these byte strings collide, and each has a length the encoder can write. */
  ghost predicate CollisionFree(h: Hash, universe: iset<Bytes>) {
    && (forall x, y :: NoClash(h, universe, x, y))
    && (forall x :: GoodSize(h, universe, x))
    && RLP_EMPTY_STRING in universe
  }

  ghost predicate NoClash(h: Hash, universe: iset<Bytes>, x: Bytes, y: Bytes) {
    x in universe && y in universe && h(x) == h(y) ==> x == y
  }

  ghost predicate GoodSize(h: Hash, universe: iset<Bytes>, x: Bytes) {
    |h(x)| == 32 && (x in universe ==> |x| < TWO_64)
  }

  /** Every node of the tree serializes into the universe. */
  ghost predicate Within(h: Hash, universe: iset<Bytes>, t: Tree) {
    match t
    case Nil => true
    case Leaf(_, _) => Enc(h, t) in universe
    case Ext(_, child) => Enc(h, t) in universe && Within(h, universe, child)
    case Branch(cs, _) =>
      Enc(h, t) in universe && forall i | 0 <= i < |cs| :: Within(h, universe, cs[i])
  }

  /** References and nodes determine the tree. */
  lemma {:induction false} RefDetermines(h: Hash, universe: iset<Bytes>, t: Tree, u: Tree)
    requires CollisionFree(h, universe) && Within(h, universe, t) && Within(h, universe, u)
    requires WF(t) && WF(u) && RefOf(h, t) == RefOf(h, u)
    ensures t == u
    decreases t, 1
  {
    RefShape(h, universe, t);
    RefShape(h, universe, u);
    if !t.Nil? && !u.Nil? {
      Distinct(h, universe, Enc(h, t), Enc(h, u));
      var m, n := NodeOf(h, t), NodeOf(h, u);
      if RefOf(h, t).Str? {
        assert Enc(h, t) == Enc(h, u);
        SerializeInjective(m, n);
      } else {
        DecodeRawRoundTrip(m);
        DecodeRawRoundTrip(n);
      }
      NodeDetermines(h, universe, t, u);
    }
  }

  lemma {:induction false} RefShape(h: Hash, universe: iset<Bytes>, t: Tree)
    requires CollisionFree(h, universe)
    ensures RefOf(h, t) == NULL <==> t.Nil?
  {
    if !t.Nil? {
      assert GoodSize(h, universe, Enc(h, t));
    }
  }

  /** What collision freedom says about two byte strings of the universe. */
  lemma {:induction false} Distinct(h: Hash, universe: iset<Bytes>, x: Bytes, y: Bytes)
    requires CollisionFree(h, universe) && x in universe && y in universe
    ensures |x| < TWO_64 && |y| < TWO_64 && (h(x) == h(y) ==> x == y)
  {
    assert GoodSize(h, universe, x) && GoodSize(h, universe, y) && NoClash(h, universe, x, y);
  }

  lemma {:induction false} NodeDetermines(h: Hash, universe: iset<Bytes>, t: Tree, u: Tree)
    requires CollisionFree(h, universe) && Within(h, universe, t) && Within(h, universe, u)
    requires WF(t) && WF(u) && !t.Nil? && !u.Nil? && NodeOf(h, t) == NodeOf(h, u)
    ensures t == u
    decreases t, 0
  {
    match t
    case Leaf(_, _) =>
    case Ext(_, child) => RefDetermines(h, universe, child, u.child);
    case Branch(cs, _) =>
      forall i | 0 <= i < 16 ensures cs[i] == u.children[i] {
        assert NodeOf(h, t).branches[i] == RefOf(h, cs[i]);
        assert NodeOf(h, u).branches[i] == RefOf(h, u.children[i]);
        RefDetermines(h, universe, cs[i], u.children[i]);
      }
  }

  /** The root hash commits to the whole trie. */
  lemma {:induction false} RootCommits(h: Hash, universe: iset<Bytes>, t: Tree, u: Tree)
    requires CollisionFree(h, universe) && Within(h, universe, t) && Within(h, universe, u)
    requires WF(t) && WF(u)
    ensures RootOf(h, t) == RootOf(h, u) <==> t == u
  {
    if RootOf(h, t) == RootOf(h, u) {
      Distinct(h, universe, if t.Nil? then RLP_EMPTY_STRING else Enc(h, t),
               if u.Nil? then RLP_EMPTY_STRING else Enc(h, u));
      if t.Nil? || u.Nil? {
        if !t.Nil? { NotEmptyString(NodeOf(h, t)); }
        if !u.Nil? { NotEmptyString(NodeOf(h, u)); }
      } else {
        SerializeInjective(NodeOf(h, t), NodeOf(h, u));
        NodeDetermines(h, universe, t, u);
      }
    }
  }

  /** A node is a list, so it never serializes to the empty string. */
  lemma {:induction false} NotEmptyString(n: Node)
    requires |Serialize(n)| < TWO_64
    ensures Serialize(n) != RLP_EMPTY_STRING
  {
    if Serialize(n) == RLP_EMPTY_STRING {
      EncodingIsPrefixFree(Raw(n), Str([]), [], []);
    }
  }
}
