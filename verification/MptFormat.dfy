/** The bytes of a trie node: the hex prefix, the fields in their order, and when a reference is a hash (Yellow
    Paper, Appendices C and D). */
module MptFormat {
  import opened Rlp
  import opened RlpLayout
  import opened Trie
  import opened MptNode

  /** The first byte holds two flags, whether the node is a leaf and whether the number of nibbles is odd, and the
      first nibble if it is; the other nibbles follow two by two. */
  lemma {:induction false} HexPrefixBytes(key: Nibbles, terminator: bool, i: nat)
    requires 1 <= i <= |key| / 2
    ensures var data, odd := PackedKey(key, terminator).data, |key| % 2;
            && |data| == |key| / 2 + 1
            && data[i] == key[2 * i - 2 + odd] as int * 16 + key[2 * i - 1 + odd]
  {
    HexToBytesAt(AddHexPrefix(key, terminator), i);
  }

  lemma {:induction false} HexPrefixFirst(key: Nibbles, terminator: bool)
    ensures var data, odd := PackedKey(key, terminator).data, |key| % 2;
            && |data| == |key| / 2 + 1
            && data[0] == 16 * ((if terminator then 2 else 0) + odd) + if odd == 1 then key[0] else 0
  {
    HexToBytesAt(AddHexPrefix(key, terminator), 0);
  }

  /** What a serialized node is made of: a leaf is its key and value, an extension its key and the reference of its
      child, a branch the references of its 16 children and its value. */
  function Fields(n: Node): Bytes {
    match n
    case LeafNode(key, value) => EncodeOf(PackedKey(key, true)) + EncodeOf(Str(value))
    case ExtNode(key, ref) => EncodeOf(PackedKey(key, false)) + EncodeOf(ref)
    case BranchNode(branches, value) => EncodeItems(branches) + EncodeOf(Str(value))
  }

  lemma {:induction false} NodeBytes(n: Node)
    requires NodeOk(n) && |Fields(n)| < TWO_64
    ensures var e, size := Serialize(n), |Fields(n)|;
            var long := if size < 56 then [] else BigEndian(size);
            && e != [] && e == [e[0]] + long + Fields(n)
            && e[0] == 0xc0 + if size < 56 then size else 55 + |long|
  {
    FieldsFit(n);
    Layout(Raw(n));
  }

  lemma {:induction false} FieldsFit(n: Node)
    ensures Payload(Raw(n)) == Fields(n)
  {
    match n
    case LeafNode(key, value) => TwoItems(PackedKey(key, true), Str(value));
    case ExtNode(key, ref) => TwoItems(PackedKey(key, false), ref);
    case BranchNode(branches, value) =>
      ListPayload(branches, [Str(value)]);
      OneItem(Str(value));
  }

  lemma {:induction false} TwoItems(x: Item, y: Item)
    ensures Payload(List([x, y])) == EncodeOf(x) + EncodeOf(y)
  {
    assert [x] + [y] == [x, y];
    ListPayload([x], [y]);
    OneItem(x);
    OneItem(y);
  }

  /** A node of less than 32 bytes is put into its parent as it is; a longer one leaves its hash there. */
  lemma {:induction false} ReferenceBytes(h: Hash, n: Node)
    ensures EncodeOf(NULL) == [0x80]
    ensures |Serialize(n)| < 32 ==> EncodeOf(Ref(h, n)) == Serialize(n)
    ensures |Serialize(n)| >= 32 && |h(Serialize(n))| == 32 ==>
              EncodeOf(Ref(h, n)) == [0xa0] + h(Serialize(n))
  {}

  /** The root is the hash of the whole top node, however short, or of the empty string's encoding. */
  lemma {:induction false} RootBytes(h: Hash, t: Tree)
    ensures RootOf(h, t) == h(if t.Nil? then EncodeOf(Str([])) else Serialize(NodeOf(h, t)))
  {
    assert EncodeOf(Str([])) == [0x80];
  }
}
