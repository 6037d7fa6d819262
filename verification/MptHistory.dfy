/** What the root hash says about the contents, and where `del` fails for keys of mixed length. */
module MptHistory {
  import opened Rlp
  import opened Trie
  import opened MptNode
  import opened TrieHistory

  /** Two tries have the same root exactly when they hold the same map, whatever was done to them. */
  lemma {:induction false} RootIsContents(h: Hash, universe: iset<Bytes>, ops: seq<Op>, others: seq<Op>)
    requires CollisionFree(h, universe)
    requires Within(h, universe, RunTree(ops)) && Within(h, universe, RunTree(others))
    requires Careful(ops) && Careful(others)
    ensures RootOf(h, RunTree(ops)) == RootOf(h, RunTree(others)) <==> SameContents(RunMap(ops), RunMap(others))
  {
    HistoryIndependence(ops, others);
    RootCommits(h, universe, RunTree(ops), RunTree(others));
  }

  // ---------------------------------------------------------------------------------------
  // Keys as bytes
  // ---------------------------------------------------------------------------------------

  datatype KeyOp = PutKey(key: Bytes, value: Bytes) | DelKey(key: Bytes)

  /** The same run, on the nibbles of its keys. */
  function Unpacked(ops: seq<KeyOp>): (r: seq<Op>)
    ensures |r| == |ops|
  {
    if ops == [] then []
    else
      var last := ops[|ops| - 1];
      Unpacked(ops[..|ops| - 1])
      + [if last.PutKey? then PutOp(BytesToNibbles(last.key), last.value) else DelOp(BytesToNibbles(last.key))]
  }

  /** What a run leaves under a key: the value of the last operation on it. */
  function LeftUnder(ops: seq<KeyOp>, key: Bytes): Bytes {
    if ops == [] then []
    else
      var last := ops[|ops| - 1];
      if last.key != key then LeftUnder(ops[..|ops| - 1], key)
      else if last.PutKey? then last.value
      else []
  }

  lemma {:induction false} ReadsAsBytes(ops: seq<KeyOp>, key: Bytes)
    ensures Read(RunMap(Unpacked(ops)), BytesToNibbles(key)) == LeftUnder(ops, key)
  {
    if ops != [] {
      var last := ops[|ops| - 1];
      ReadsAsBytes(ops[..|ops| - 1], key);
      assert Unpacked(ops)[..|ops| - 1] == Unpacked(ops[..|ops| - 1]);
      if BytesToNibbles(last.key) == BytesToNibbles(key) {
        NibblesInjective(last.key, key);
      }
    }
  }

  /** Only the nibbles of byte strings are ever keys. */
  lemma {:induction false} KeysAreBytes(ops: seq<KeyOp>, k: Nibbles)
    requires k in RunMap(Unpacked(ops))
    ensures |k| % 2 == 0 && BytesToNibbles(HexToBytes(k)) == k
  {
    var last := ops[|ops| - 1];
    var key := BytesToNibbles(last.key);
    assert Unpacked(ops)[..|ops| - 1] == Unpacked(ops[..|ops| - 1]);
    if k == key {
      PackRoundTrip(key);
    } else {
      KeysAreBytes(ops[..|ops| - 1], k);
    }
  }

  ghost predicate SameLeft(ops: seq<KeyOp>, others: seq<KeyOp>) {
    forall key :: LeftUnder(ops, key) == LeftUnder(others, key)
  }

  lemma {:induction false} SameAsBytes(ops: seq<KeyOp>, others: seq<KeyOp>)
    ensures SameContents(RunMap(Unpacked(ops)), RunMap(Unpacked(others))) <==> SameLeft(ops, others)
  {
    hide RunMap, LeftUnder, Unpacked;
    var m, n := RunMap(Unpacked(ops)), RunMap(Unpacked(others));
    if SameContents(m, n) {
      forall key ensures LeftUnder(ops, key) == LeftUnder(others, key) {
        ReadsAsBytes(ops, key);
        ReadsAsBytes(others, key);
      }
    }
    if SameLeft(ops, others) {
      forall k ensures Read(m, k) == Read(n, k) {
        if k in m {
          KeysAreBytes(ops, k);
        } else if k in n {
          KeysAreBytes(others, k);
        }
        if k in m || k in n {
          ReadsAsBytes(ops, HexToBytes(k));
          ReadsAsBytes(others, HexToBytes(k));
        }
      }
      assert SameContents(m, n);
    }
  }

  /** Two tries built with `put` and `del` over byte keys have the same root exactly when the same value is left
      under every key. */
  lemma {:induction false} RootIsKeysAndValues(h: Hash, universe: iset<Bytes>, ops: seq<KeyOp>, others: seq<KeyOp>)
    requires CollisionFree(h, universe)
    requires Within(h, universe, RunTree(Unpacked(ops))) && Within(h, universe, RunTree(Unpacked(others)))
    requires Careful(Unpacked(ops)) && Careful(Unpacked(others))
    ensures RootOf(h, RunTree(Unpacked(ops))) == RootOf(h, RunTree(Unpacked(others))) <==> SameLeft(ops, others)
  {
    RootIsContents(h, universe, Unpacked(ops), Unpacked(others));
    SameAsBytes(ops, others);
  }

  // ---------------------------------------------------------------------------------------
  // Keys of mixed length
  // ---------------------------------------------------------------------------------------

  /** With keys of mixed length a deletion can be exact and the root still depend on the history: the key `6162` is
      put below `61` and deleted again, and a branch without children stays behind. */
  lemma {:induction false} HistoryMatters(value: Bytes, below: Bytes)
    requires value != [] && below != []
    ensures var once, detour := [PutOp([6, 1], value)],
            [PutOp([6, 1], value), PutOp([6, 1, 6, 2], below), DelOp([6, 1, 6, 2])];
            && SameContents(RunMap(once), RunMap(detour)) && DelRootIsExact(RunTree(detour[..2]), [6, 1, 6, 2])
            && RunTree(once) == Leaf([6, 1], value) && RunTree(detour) == Ext([6, 1], Branch(Nils(16), value))
  {
    var a, b, c := PutOp([6, 1], value), PutOp([6, 1, 6, 2], below), DelOp([6, 1, 6, 2]);
    var t := Ext([6, 1], Branch(Nils(16)[6 := Leaf([2], below)], value));
    assert RunTree([]) == Nil && RunMap([]) == map[];
    assert [a][..0] == [] && RunTree([a]) == Leaf([6, 1], value);
    assert [a, b][..1] == [a] && [a, b, c][..2] == [a, b];
    PutsBelow(value, below);
    assert RunTree([a, b]) == t;
    DelStrands(value, below);
    assert RunMap([a]) == map[[6, 1] := value];
    assert RunMap([a, b]) == map[[6, 1] := value, [6, 1, 6, 2] := below];
    assert RunMap([a, b, c]) == map[[6, 1] := value];
  }

  lemma {:induction false} PutsBelow(value: Bytes, below: Bytes)
    requires value != [] && below != []
    ensures Put(Leaf([6, 1], value), [6, 1, 6, 2], below) == Ext([6, 1], Branch(Nils(16)[6 := Leaf([2], below)], value))
  {
    var k: Nibbles := [6, 1, 6, 2];
    assert MatchingNibbleLength([6, 1], k) == 2;
    assert k[2..] == [6, 2] && k[2..][1..] == [2];
  }

  lemma {:induction false} DelStrands(value: Bytes, below: Bytes)
    requires value != [] && below != []
    ensures var t := Ext([6, 1], Branch(Nils(16)[6 := Leaf([2], below)], value));
            && WF(t) && DelRootIsExact(t, [6, 1, 6, 2]) && Strands(t, [6, 1, 6, 2])
            && DelRoot(t, [6, 1, 6, 2]) == Ext([6, 1], Branch(Nils(16), value))
  {
    var cs := Nils(16)[6 := Leaf([2], below)];
    var k: Nibbles := [6, 1, 6, 2];
    NoChildren();
    CountUpdate(Nils(16), 6, Leaf([2], below));
    assert cs[6 := Nil] == Nils(16);
    assert k[2..] == [6, 2] && [6, 2][1..] == [2];
    var b := Branch(cs, value);
    assert WF(b);
    assert Del(b, [6, 2]) == Collapse(Nils(16), value) == Branch(Nils(16), value);
    assert Del(Ext([6, 1], b), k) == Prepend([6, 1], Del(b, [6, 2]));
  }

  /** The keys `61`, `6162` and `6172`: the first is a prefix of the other two. */
  function Nested(value: Bytes, left: Bytes, right: Bytes): Tree {
    Ext([6, 1], Branch(Nils(16)[6 := Leaf([2], left)][7 := Leaf([2], right)], value))
  }

  lemma {:induction false} NestedCount(left: Bytes, right: Bytes)
    ensures Count(Nils(16)[6 := Leaf([2], left)][7 := Leaf([2], right)]) == 2
    ensures Count(Nils(16)[6 := Leaf([2], left)][7 := Leaf([2], right)][6 := Nil]) == 1
  {
    NoChildren();
    var cs := Nils(16)[6 := Leaf([2], left)];
    CountUpdate(Nils(16), 6, Leaf([2], left));
    CountUpdate(cs, 7, Leaf([2], right));
    CountUpdate(cs[7 := Leaf([2], right)], 6, Nil);
  }

  /** `del` of a key at a branch with two children leaves its value in place. */
  lemma {:induction false} DelLeavesValue(value: Bytes, left: Bytes, right: Bytes)
    requires value != [] && left != [] && right != []
    ensures var t := Nested(value, left, right);
            WF(t) && WF(DelRoot(t, [6, 1])) && Get(DelRoot(t, [6, 1]), [6, 1]) == value
  {
    NestedCount(left, right);
    var t := Nested(value, left, right);
    assert [6, 1][2..] == [];
    assert Del(t.child, []) == t.child;
  }

  /** `del` of one of the two children takes the branch's own value with it. */
  lemma {:induction false} DelLosesNeighbour(value: Bytes, left: Bytes, right: Bytes)
    requires value != [] && left != [] && right != []
    ensures var t := Nested(value, left, right);
            && WF(t) && WF(DelRoot(t, [6, 1, 6, 2]))
            && Get(t, [6, 1]) == value && Get(DelRoot(t, [6, 1, 6, 2]), [6, 1]) == []
  {
    NestedIsWF(value, left, right);
    NestedCount(left, right);
    DelInNested(value, left, right);
    hide Del, Count;
    var t := Nested(value, left, right);
    var last := t.child.children[6 := Nil];
    assert [6, 1][2..] == [];
    DelIsWF(t, [6, 1, 6, 2]);
    PrependIsWF([OnlyChild(last)], last[OnlyChild(last)]);
    GetPrepend([6, 1], Collapse(last, value), [6, 1]);
    GetCollapse(last, value, []);
  }

  lemma {:induction false} NestedIsWF(value: Bytes, left: Bytes, right: Bytes)
    requires value != [] && left != [] && right != []
    ensures WF(Nested(value, left, right)) && Get(Nested(value, left, right), [6, 1]) == value
  {
    NestedCount(left, right);
    assert WF(Nested(value, left, right).child);
    assert [6, 1][2..] == [];
  }

  lemma {:induction false} DelInNested(value: Bytes, left: Bytes, right: Bytes)
    requires WF(Nested(value, left, right))
    ensures var t := Nested(value, left, right);
            DelRoot(t, [6, 1, 6, 2]) == Prepend([6, 1], Collapse(t.child.children[6 := Nil], value))
  {
    hide Collapse, Prepend, Count;
    var k: Nibbles := [6, 1, 6, 2];
    var rest: Nibbles := k[2..];
    assert rest == [6, 2] && rest[1..] == [2];
    assert Del(Nested(value, left, right).child, rest) ==
      Collapse(Nested(value, left, right).child.children[6 := Nil], value);
  }
}
