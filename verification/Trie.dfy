/** The radix tree kept by `packages/mpt/src/mpt.ts`, as a value.

    `Put` and `Del` follow the branches of `_updateNode` and `_deleteNode` (with
    `processBranchMPTNode`) on whole trees; `Mpt.dfy` shows that the class, which walks a stack of
    nodes and stores hashes, computes exactly these trees. An empty byte string stands for "no
    value", as it does in the source. */
module Trie {
  import opened Rlp

  type Nibbles = seq<nibble>

  datatype Tree =
    | Nil
    | Leaf(key: Nibbles, value: Bytes)
    | Ext(key: Nibbles, child: Tree)
    | Branch(children: seq<Tree>, value: Bytes)

  /** `new Array(n).fill(null)`. */
  function Nils(n: nat): (r: seq<Tree>)
    ensures |r| == n && (forall i | 0 <= i < n :: r[i] == Nil)
  {
    if n == 0 then [] else Nils(n - 1) + [Nil]
  }

  /** The number of occupied slots: the length of `getChildren()`. */
  function Count(cs: seq<Tree>): nat {
    if cs == [] then 0 else Count(cs[..|cs| - 1]) + if cs[|cs| - 1].Nil? then 0 else 1
  }

  /** Every trie the operations can produce: an extension has a key and a branch below it, a leaf
      has a value, and a branch has a value or at least two children. */
  ghost predicate WF(t: Tree) {
    match t
    case Nil => true
    case Leaf(_, value) => value != []
    case Ext(key, child) => key != [] && child.Branch? && WF(child)
    case Branch(cs, value) =>
      && |cs| == 16
      && (forall i | 0 <= i < |cs| :: WF(cs[i]))
      && (value != [] || Count(cs) >= 2)
  }

  /** The canonical form: in addition every branch has at least two occupants. */
  ghost predicate Canonical(t: Tree) {
    && WF(t)
    && match t
       case Nil => true
       case Leaf(_, _) => true
       case Ext(_, child) => Canonical(child)
       case Branch(cs, value) =>
         && (forall i | 0 <= i < |cs| :: Canonical(cs[i]))
         && Count(cs) >= 1
  }

  /** All keys have `n` nibbles. */
  ghost predicate KeyLength(t: Tree, n: nat) {
    match t
    case Nil => true
    case Leaf(key, _) => |key| == n
    case Ext(key, child) => |key| <= n && KeyLength(child, n - |key|)
    case Branch(cs, value) =>
      && value == [] && n >= 1
      && forall i | 0 <= i < |cs| :: KeyLength(cs[i], n - 1)
  }

  // ---------------------------------------------------------------------------------------
  // Operations
  // ---------------------------------------------------------------------------------------

  ghost function Get(t: Tree, k: Nibbles): Bytes
    requires WF(t)
  {
    match t
    case Nil => []
    case Leaf(key, value) => if key == k then value else []
    case Ext(key, child) => if key <= k then Get(child, k[|key|..]) else []
    case Branch(cs, value) => if k == [] then value else Get(cs[k[0]], k[1..])
  }

  /** `matchingNibbleLength` (util/nibbles.ts). */
  function MatchingNibbleLength(a: Nibbles, b: Nibbles): (m: nat)
    ensures m <= |a| && m <= |b| && a[..m] == b[..m]
    ensures m < |a| && m < |b| ==> a[m] != b[m]
  {
    if a == [] || b == [] || a[0] != b[0] then 0
    else
      var m := 1 + MatchingNibbleLength(a[1..], b[1..]);
      assert a[..m] == [a[0]] + a[1..][..m - 1];
      assert b[..m] == [b[0]] + b[1..][..m - 1];
      m
  }

  /** Puts an extension above a branch unless its key is empty. */
  function Extend(key: Nibbles, t: Tree): Tree {
    if key == [] then t else Ext(key, t)
  }

  /** A branch that holds one old subtree and one new value under different nibbles. */
  function Fork(oldSlot: Nibbles, oldTree: Tree, oldValue: Bytes, k: Nibbles, v: Bytes): Tree {
    var cs := if oldSlot == [] then Nils(16) else Nils(16)[oldSlot[0] := oldTree];
    if k == [] then Branch(cs, v) else Branch(cs[k[0] := Leaf(k[1..], v)], oldValue)
  }

  ghost function Put(t: Tree, k: Nibbles, v: Bytes): (r: Tree)
    requires WF(t) && v != []
  {
    match t
    case Nil => Leaf(k, v)
    case Leaf(key, value) =>
      if key == k then Leaf(k, v)
      else
        var m := MatchingNibbleLength(key, k);
        if m == |key| then Extend(key[..m], Fork([], Nil, value, k[m..], v))
        else Extend(key[..m], Fork([key[m]], Leaf(key[m + 1..], value), [], k[m..], v))
    case Ext(key, child) =>
      if key <= k then Ext(key, Put(child, k[|key|..], v))
      else
        var m := MatchingNibbleLength(key, k);
        Extend(key[..m], Fork([key[m]], Extend(key[m + 1..], child), [], k[m..], v))
    case Branch(cs, value) =>
      if k == [] then Branch(cs, v)
      else Branch(cs[k[0] := Put(cs[k[0]], k[1..], v)], value)
  }

  /** The only occupied slot. */
  ghost function OnlyChild(cs: seq<Tree>): (i: nat)
    requires Count(cs) == 1
    ensures i < |cs| && !cs[i].Nil? && forall j | 0 <= j < |cs| && j != i :: cs[j].Nil?
  {
    if !cs[|cs| - 1].Nil? then
      NoneOccupied(cs[..|cs| - 1]);
      assert forall j | 0 <= j < |cs| - 1 :: cs[j] == cs[..|cs| - 1][j];
      |cs| - 1
    else
      var i := OnlyChild(cs[..|cs| - 1]);
      assert forall j | 0 <= j < |cs| - 1 :: cs[j] == cs[..|cs| - 1][j];
      i
  }

  /** Puts nibbles in front of everything in a non-empty tree. */
  function Prepend(key: Nibbles, t: Tree): Tree {
    match t
    case Leaf(k, v) => Leaf(key + k, v)
    case Ext(k, c) => Ext(key + k, c)
    case _ => Extend(key, t)
  }

  /** A branch after one of its occupants is gone: with one child left it is merged with that
      child, and whatever value the branch had is dropped. */
  ghost function Collapse(cs: seq<Tree>, value: Bytes): Tree
    requires |cs| == 16
  {
    if Count(cs) == 1 then Prepend([OnlyChild(cs)], cs[OnlyChild(cs)]) else Branch(cs, value)
  }

  /** Below the root. Clearing the value of a branch leaves it in place. */
  ghost function Del(t: Tree, k: Nibbles): Tree
    requires WF(t)
  {
    match t
    case Nil => Nil
    case Leaf(key, _) => if key == k then Nil else t
    case Ext(key, child) => if key <= k then Prepend(key, Del(child, k[|key|..])) else t
    case Branch(cs, value) =>
      if k == [] then Collapse(cs, value)
      else
        var c := cs[k[0]];
        if c.Leaf? && c.key == k[1..] then Collapse(cs[k[0] := Nil], value)
        else Branch(cs[k[0] := Del(c, k[1..])], value)
  }

  /** At the root a found node without a parent is taken for the whole trie. */
  ghost function DelRoot(t: Tree, k: Nibbles): Tree
    requires WF(t)
  {
    if k == [] && t.Branch? then Nil else Del(t, k)
  }

  // ---------------------------------------------------------------------------------------
  // Counting children
  // ---------------------------------------------------------------------------------------

  lemma {:induction false} NoneOccupied(cs: seq<Tree>)
    ensures Count(cs) == 0 <==> forall j | 0 <= j < |cs| :: cs[j].Nil?
  {
    if cs != [] {
      var init := cs[..|cs| - 1];
      NoneOccupied(init);
      assert forall j | 0 <= j < |init| :: cs[j] == init[j];
      assert cs[|cs| - 1].Nil? || !cs[|cs| - 1].Nil?;
    }
  }

  lemma {:induction false} CountUpdate(cs: seq<Tree>, i: nat, t: Tree)
    requires i < |cs|
    ensures Count(cs[i := t]) ==
            Count(cs) - (if cs[i].Nil? then 0 else 1) + (if t.Nil? then 0 else 1)
  {
    var init := cs[..|cs| - 1];
    if i == |cs| - 1 {
      assert cs[i := t][..|cs| - 1] == init;
    } else {
      assert cs[i := t][..|cs| - 1] == init[i := t];
      CountUpdate(init, i, t);
    }
  }

  lemma {:induction false} NoChildren()
    ensures Count(Nils(16)) == 0
  {
    NoneOccupied(Nils(16));
  }

  /** Two different occupied slots of a branch. */
  lemma {:induction false} TwoOccupied(cs: seq<Tree>) returns (i: nat, j: nat)
    requires Count(cs) >= 2
    ensures i < j < |cs| && !cs[i].Nil? && !cs[j].Nil?
  {
    var init := cs[..|cs| - 1];
    if cs[|cs| - 1].Nil? || Count(init) >= 2 {
      i, j := TwoOccupied(init);
    } else {
      i, j := OnlyChild(init), |cs| - 1;
    }
  }

  // ---------------------------------------------------------------------------------------
  // Put is map update, for all keys
  // ---------------------------------------------------------------------------------------

  /** Filling one slot of a row of well-formed trees. */
  lemma {:induction false} SlotIsWF(cs: seq<Tree>, i: nat, t: Tree)
    requires |cs| == 16 && i < 16 && WF(t) && !t.Nil?
    requires forall j | 0 <= j < 16 :: WF(cs[j])
    ensures var cs' := cs[i := t];
            && (forall j | 0 <= j < 16 :: WF(cs'[j]))
            && (Canonical(t) && (forall j | 0 <= j < 16 :: Canonical(cs[j])) ==>
                  forall j | 0 <= j < 16 :: Canonical(cs'[j]))
    ensures Count(cs[i := t]) == Count(cs) + if cs[i].Nil? then 1 else 0
  {
    CountUpdate(cs, i, t);
    assert forall j | 0 <= j < 16 :: cs[i := t][j] == if j == i then t else cs[j];
  }

  lemma {:induction false} ForkIsWF(oldSlot: Nibbles, oldTree: Tree, oldValue: Bytes, k: Nibbles, v: Bytes)
    requires v != [] && WF(oldTree) && |oldSlot| <= 1
    requires if oldSlot == [] then oldValue != [] && k != [] else oldValue == [] && !oldTree.Nil?
    requires oldSlot != [] && k != [] ==> oldSlot[0] != k[0]
    ensures WF(Fork(oldSlot, oldTree, oldValue, k, v)) && Fork(oldSlot, oldTree, oldValue, k, v).Branch?
    ensures Canonical(oldTree) ==> Canonical(Fork(oldSlot, oldTree, oldValue, k, v))
  {
    NoChildren();
    var cs := if oldSlot == [] then Nils(16) else Nils(16)[oldSlot[0] := oldTree];
    if oldSlot != [] {
      SlotIsWF(Nils(16), oldSlot[0], oldTree);
    }
    if k != [] {
      SlotIsWF(cs, k[0], Leaf(k[1..], v));
    }
  }

  lemma {:induction false} PutAtLeafIsWF(key: Nibbles, value: Bytes, k: Nibbles, v: Bytes)
    requires value != [] && v != []
    ensures Canonical(Put(Leaf(key, value), k, v)) && !Put(Leaf(key, value), k, v).Nil?
  {
    if key != k {
      var m := MatchingNibbleLength(key, k);
      if m == |key| {
        ForkIsWF([], Nil, value, k[m..], v);
      } else {
        ForkIsWF([key[m]], Leaf(key[m + 1..], value), [], k[m..], v);
      }
    }
  }

  lemma {:induction false} PutAtExtIsWF(key: Nibbles, child: Tree, k: Nibbles, v: Bytes)
    requires WF(Ext(key, child)) && v != [] && !(key <= k)
    ensures WF(Put(Ext(key, child), k, v)) && !Put(Ext(key, child), k, v).Nil?
    ensures Canonical(child) ==> Canonical(Put(Ext(key, child), k, v))
  {
    var m := MatchingNibbleLength(key, k);
    ForkIsWF([key[m]], Extend(key[m + 1..], child), [], k[m..], v);
  }

  lemma {:induction false} PutIsWF(t: Tree, k: Nibbles, v: Bytes)
    requires WF(t) && v != []
    ensures WF(Put(t, k, v)) && !Put(t, k, v).Nil?
    ensures t.Branch? ==> Put(t, k, v).Branch?
    ensures Canonical(t) ==> Canonical(Put(t, k, v))
  {
    match t
    case Nil =>
    case Leaf(key, value) => PutAtLeafIsWF(key, value, k, v);
    case Ext(key, child) =>
      if key <= k {
        PutIsWF(child, k[|key|..], v);
      } else {
        PutAtExtIsWF(key, child, k, v);
      }
    case Branch(cs, value) =>
      if k != [] {
        PutIsWF(cs[k[0]], k[1..], v);
        SlotIsWF(cs, k[0], Put(cs[k[0]], k[1..], v));
      }
  }

  lemma {:induction false} GetExtend(key: Nibbles, t: Tree, k: Nibbles)
    requires WF(t) && t.Branch?
    ensures Get(Extend(key, t), k) == if key <= k then Get(t, k[|key|..]) else []
  {}

  lemma {:induction false} GetFork(oldSlot: Nibbles, oldTree: Tree, oldValue: Bytes, k: Nibbles, v: Bytes, q: Nibbles)
    requires v != [] && WF(oldTree) && |oldSlot| <= 1
    requires if oldSlot == [] then oldValue != [] && k != [] else oldValue == [] && !oldTree.Nil?
    requires oldSlot != [] && k != [] ==> oldSlot[0] != k[0]
    requires WF(Fork(oldSlot, oldTree, oldValue, k, v))
    ensures Get(Fork(oldSlot, oldTree, oldValue, k, v), q) ==
            if q == k then v
            else if oldSlot == [] then (if q == [] then oldValue else [])
            else if oldSlot <= q then Get(oldTree, q[1..])
            else []
  {
    if q != [] && k != [] {
      assert q == [q[0]] + q[1..] && k == [k[0]] + k[1..];
    }
    if q != [] && oldSlot != [] {
      assert oldSlot <= q <==> q[0] == oldSlot[0];
    }
  }

  /** Comparing two keys below a common prefix. */
  lemma {:induction false} BelowPrefix(p: Nibbles, k: Nibbles, q: Nibbles)
    requires p <= k
    ensures q == k <==> p <= q && q[|p|..] == k[|p|..]
  {
    assert k == k[..|p|] + k[|p|..];
    if p <= q {
      assert q == q[..|p|] + q[|p|..];
    }
  }

  /** Cutting a key after a position and comparing both parts. */
  lemma {:induction false} CutKey(key: Nibbles, i: nat, q: Nibbles)
    requires i <= |key|
    ensures key <= q <==> key[..i] <= q && key[i..] <= q[i..]
    ensures key == q <==> key[..i] <= q && key[i..] == q[i..]
  {
    assert key == key[..i] + key[i..];
    if key[..i] <= q {
      assert q == key[..i] + q[i..];
    }
    if key <= q {
      assert key[i..] == q[i..][..|key| - i];
    }
  }

  /** A key that is no prefix of another leaves it inside itself. */
  lemma {:induction false} LeavesInside(key: Nibbles, k: Nibbles)
    requires !(key <= k)
    ensures MatchingNibbleLength(key, k) < |key|
  {}

  /** Reading below the branch that is made where a key leaves the key of a node. */
  lemma {:induction false} GetSplit(key: Nibbles, kept: Tree, k: Nibbles, v: Bytes, q: Nibbles)
    requires WF(kept) && !kept.Nil? && v != [] && !(key <= k)
    ensures var m := MatchingNibbleLength(key, k);
            && m < |key|
            && var t := Extend(key[..m], Fork([key[m]], kept, [], k[m..], v));
            && WF(t)
            && Get(t, q) == if q == k then v else if key[..m + 1] <= q then Get(kept, q[m + 1..]) else []
  {
    var m := MatchingNibbleLength(key, k);
    var p := key[..m];
    ForkIsWF([key[m]], kept, [], k[m..], v);
    GetExtend(p, Fork([key[m]], kept, [], k[m..], v), q);
    BelowPrefix(p, k, q);
    CutKey(key[..m + 1], m, q);
    assert key[..m + 1][..m] == p && key[..m + 1][m..] == [key[m]];
    if p <= q {
      GetFork([key[m]], kept, [], k[m..], v, q[m..]);
      if [key[m]] <= q[m..] {
        assert q[m..][1..] == q[m + 1..];
      }
    }
  }

  /** `put` is map update, whatever the keys: prefixes of one another or not. */
  lemma {:induction false} GetPut(t: Tree, k: Nibbles, v: Bytes, q: Nibbles)
    requires WF(t) && v != [] && WF(Put(t, k, v))
    ensures Get(Put(t, k, v), q) == if q == k then v else Get(t, q)
  {
    match t
    case Nil =>
    case Leaf(key, value) =>
      if key != k {
        GetPutLeaf(key, value, k, v, q);
      }
    case Ext(key, child) =>
      if key <= k {
        PutIsWF(child, k[|key|..], v);
        BelowPrefix(key, k, q);
        if key <= q {
          GetPut(child, k[|key|..], v, q[|key|..]);
        }
      } else {
        GetPutExt(key, child, k, v, q);
      }
    case Branch(cs, value) =>
      if k != [] && q != [] {
        PutIsWF(cs[k[0]], k[1..], v);
        if q[0] == k[0] {
          GetPut(cs[k[0]], k[1..], v, q[1..]);
          assert q == [q[0]] + q[1..] && k == [k[0]] + k[1..];
        }
      }
  }

  /** Reading below the branch that is made under the whole key of a leaf. */
  lemma {:induction false} GetBelowLeaf(key: Nibbles, value: Bytes, k: Nibbles, v: Bytes, q: Nibbles)
    requires key < k && value != [] && v != []
    ensures var t := Extend(key, Fork([], Nil, value, k[|key|..], v));
            WF(t) && Get(t, q) == if q == k then v else if q == key then value else []
  {
    var rest := k[|key|..];
    ForkIsWF([], Nil, value, rest, v);
    GetExtend(key, Fork([], Nil, value, rest, v), q);
    BelowPrefix(key, k, q);
    BelowPrefix(key, key, q);
    if key <= q {
      GetFork([], Nil, value, rest, v, q[|key|..]);
    }
  }

  lemma {:induction false} GetPutLeaf(key: Nibbles, value: Bytes, k: Nibbles, v: Bytes, q: Nibbles)
    requires key != k && value != [] && v != []
    ensures WF(Put(Leaf(key, value), k, v))
    ensures Get(Put(Leaf(key, value), k, v), q) == if q == k then v else Get(Leaf(key, value), q)
  {
    var m := MatchingNibbleLength(key, k);
    if key <= k {
      assert m == |key| && key[..m] == key;
      GetBelowLeaf(key, value, k, v, q);
    } else {
      LeavesInside(key, k);
      GetSplit(key, Leaf(key[m + 1..], value), k, v, q);
      CutKey(key, m + 1, q);
    }
  }

  lemma {:induction false} GetPutExt(key: Nibbles, child: Tree, k: Nibbles, v: Bytes, q: Nibbles)
    requires WF(Ext(key, child)) && v != [] && !(key <= k)
    ensures WF(Put(Ext(key, child), k, v))
    ensures Get(Put(Ext(key, child), k, v), q) == if q == k then v else Get(Ext(key, child), q)
  {
    var m := MatchingNibbleLength(key, k);
    LeavesInside(key, k);
    GetSplit(key, Extend(key[m + 1..], child), k, v, q);
    CutKey(key, m + 1, q);
    if key[..m + 1] <= q {
      GetExtend(key[m + 1..], child, q[m + 1..]);
      if key <= q {
        assert q[m + 1..][|key| - m - 1..] == q[|key|..];
      }
    }
  }

  // ---------------------------------------------------------------------------------------
  // Del: exactly when it is map removal
  // ---------------------------------------------------------------------------------------

  /** `del` goes wrong in two places: at a branch whose own value is to go it clears nothing, and
      only the loss of the whole branch (one child left) removes that value; and next to a leaf that
      goes, a branch with a value and one other child is merged away together with its value. */
  ghost predicate DelIsExact(t: Tree, k: Nibbles)
    requires WF(t)
  {
    match t
    case Nil => true
    case Leaf(_, _) => true
    case Ext(key, child) => key <= k ==> DelIsExact(child, k[|key|..])
    case Branch(cs, value) =>
      if k == [] then value == [] || Count(cs) == 1
      else if cs[k[0]].Leaf? && cs[k[0]].key == k[1..] then value == [] || Count(cs) != 2
      else DelIsExact(cs[k[0]], k[1..])
  }

  ghost predicate DelRootIsExact(t: Tree, k: Nibbles)
    requires WF(t)
  {
    if k == [] && t.Branch? then Count(t.children) == 0 else DelIsExact(t, k)
  }

  lemma {:induction false} PrependIsWF(key: Nibbles, t: Tree)
    requires WF(t) && !t.Nil? && key != []
    ensures WF(Prepend(key, t)) && !Prepend(key, t).Nil?
    ensures Canonical(t) <==> Canonical(Prepend(key, t))
    ensures forall n: nat :: KeyLength(t, n) ==> KeyLength(Prepend(key, t), n + |key|)
  {}

  lemma {:induction false} GetPrepend(key: Nibbles, t: Tree, q: Nibbles)
    requires WF(t) && !t.Nil? && key != [] && WF(Prepend(key, t))
    ensures Get(Prepend(key, t), q) == if key <= q then Get(t, q[|key|..]) else []
  {
    match t
    case Leaf(k, _) => BelowPrefix(key, key + k, q);
    case Ext(k, _) =>
      if key <= q {
        assert key + k <= q <==> k <= q[|key|..] by {
          if k <= q[|key|..] {
            assert q == key + q[|key|..];
          }
          if key + k <= q {
            assert q[|key|..][..|k|] == (key + k)[|key|..];
          }
        }
        if key + k <= q {
          assert q[|key|..][|k|..] == q[|key + k|..];
        }
      }
    case _ =>
  }

  lemma {:induction false} CollapseIsWF(cs: seq<Tree>, value: Bytes)
    requires |cs| == 16 && forall i | 0 <= i < 16 :: WF(cs[i])
    requires value != [] || Count(cs) >= 1
    ensures WF(Collapse(cs, value)) && !Collapse(cs, value).Nil?
  {
    if Count(cs) == 1 {
      PrependIsWF([OnlyChild(cs)], cs[OnlyChild(cs)]);
    }
  }

  lemma {:induction false} GetCollapse(cs: seq<Tree>, value: Bytes, q: Nibbles)
    requires |cs| == 16 && (forall i | 0 <= i < 16 :: WF(cs[i]))
    requires value != [] || Count(cs) >= 1
    requires WF(Collapse(cs, value))
    ensures Get(Collapse(cs, value), q) ==
            if q == [] then (if Count(cs) == 1 then [] else value) else Get(cs[q[0]], q[1..])
  {
    if Count(cs) == 1 {
      var i := OnlyChild(cs);
      GetPrepend([i], cs[i], q);
    }
  }

  lemma {:induction false} DelIsWF(t: Tree, k: Nibbles)
    requires WF(t)
    ensures WF(Del(t, k))
    ensures Del(t, k).Nil? <==> t.Nil? || (t.Leaf? && t.key == k)
  {
    match t
    case Nil =>
    case Leaf(_, _) =>
    case Ext(key, child) =>
      if key <= k {
        DelIsWF(child, k[|key|..]);
        PrependIsWF(key, Del(child, k[|key|..]));
      }
    case Branch(cs, value) =>
      if k == [] {
        CollapseIsWF(cs, value);
      } else if cs[k[0]].Leaf? && cs[k[0]].key == k[1..] {
        CountUpdate(cs, k[0], Nil);
        CollapseIsWF(cs[k[0] := Nil], value);
      } else {
        DelIsWF(cs[k[0]], k[1..]);
        CountUpdate(cs, k[0], Del(cs[k[0]], k[1..]));
      }
  }

  /** Where `DelIsExact` holds, `del` is map removal. */
  lemma {:induction false} GetDel(t: Tree, k: Nibbles, q: Nibbles)
    requires WF(t) && DelIsExact(t, k) && WF(Del(t, k))
    ensures Get(Del(t, k), q) == if q == k then [] else Get(t, q)
  {
    match t
    case Nil =>
    case Leaf(_, _) =>
    case Ext(key, child) =>
      if key <= k {
        DelIsWF(child, k[|key|..]);
        GetPrepend(key, Del(child, k[|key|..]), q);
        BelowPrefix(key, k, q);
        if key <= q {
          GetDel(child, k[|key|..], q[|key|..]);
        }
      }
    case Branch(cs, value) =>
      if k != [] && q != [] {
        assert q == k <==> q[0] == k[0] && q[1..] == k[1..] by {
          assert q == [q[0]] + q[1..] && k == [k[0]] + k[1..];
        }
      }
      if k == [] {
        GetCollapse(cs, value, q);
      } else if cs[k[0]].Leaf? && cs[k[0]].key == k[1..] {
        CountUpdate(cs, k[0], Nil);
        GetCollapse(cs[k[0] := Nil], value, q);
      } else if q != [] && q[0] == k[0] {
        DelIsWF(cs[k[0]], k[1..]);
        GetDel(cs[k[0]], k[1..], q[1..]);
      }
  }

  /** The keys that `del` takes away, right or wrong: the key itself, unless it ends at a branch with other children
      than one; and with it the value of a branch that keeps only one child. */
  ghost predicate Loses(t: Tree, k: Nibbles, q: Nibbles)
    requires WF(t)
  {
    match t
    case Nil => false
    case Leaf(_, _) => q == k
    case Ext(key, child) => key <= k && key <= q && Loses(child, k[|key|..], q[|key|..])
    case Branch(cs, _) =>
      if k == [] then q == [] && Count(cs) == 1
      else if cs[k[0]].Leaf? && cs[k[0]].key == k[1..] then q == k || (q == [] && Count(cs) == 2)
      else q != [] && q[0] == k[0] && Loses(cs[k[0]], k[1..], q[1..])
  }

  /** At the root everything goes with the value of a branch. */
  ghost predicate LosesAtRoot(t: Tree, k: Nibbles, q: Nibbles)
    requires WF(t)
  {
    (k == [] && t.Branch?) || Loses(t, k, q)
  }

  /** What every key reads after `del`, on every trie. */
  lemma {:induction false} DelReads(t: Tree, k: Nibbles, q: Nibbles)
    requires WF(t)
    ensures WF(Del(t, k)) && Get(Del(t, k), q) == if Loses(t, k, q) then [] else Get(t, q)
    ensures WF(DelRoot(t, k)) && Get(DelRoot(t, k), q) == if LosesAtRoot(t, k, q) then [] else Get(t, q)
  {
    DelIsWF(t, k);
    match t
    case Nil =>
    case Leaf(_, _) =>
    case Ext(key, child) =>
      if key <= k {
        DelIsWF(child, k[|key|..]);
        GetPrepend(key, Del(child, k[|key|..]), q);
        if key <= q {
          DelReads(child, k[|key|..], q[|key|..]);
        }
      }
    case Branch(cs, value) =>
      if k == [] {
        GetCollapse(cs, value, q);
      } else if cs[k[0]].Leaf? && cs[k[0]].key == k[1..] {
        CountUpdate(cs, k[0], Nil);
        GetCollapse(cs[k[0] := Nil], value, q);
        if q != [] {
          assert q == k <==> q[0] == k[0] && q[1..] == k[1..] by {
            assert q == [q[0]] + q[1..] && k == [k[0]] + k[1..];
          }
        }
      } else if q != [] && q[0] == k[0] {
        DelReads(cs[k[0]], k[1..], q[1..]);
      }
  }

  /** Where `DelIsExact` does not hold, some key reads wrongly afterwards. */
  lemma {:induction false} DelWitness(t: Tree, k: Nibbles) returns (q: Nibbles)
    requires WF(t) && !DelIsExact(t, k) && WF(Del(t, k))
    ensures Get(Del(t, k), q) != if q == k then [] else Get(t, q)
  {
    match t
    case Ext(key, child) =>
      DelIsWF(child, k[|key|..]);
      var r := DelWitness(child, k[|key|..]);
      q := key + r;
      GetPrepend(key, Del(child, k[|key|..]), q);
      BelowPrefix(key, k, q);
      assert q[|key|..] == r;
    case Branch(cs, value) =>
      if k == [] {
        q := [];
      } else if cs[k[0]].Leaf? && cs[k[0]].key == k[1..] {
        q := [];
        CountUpdate(cs, k[0], Nil);
        GetCollapse(cs[k[0] := Nil], value, q);
      } else {
        DelIsWF(cs[k[0]], k[1..]);
        var r := DelWitness(cs[k[0]], k[1..]);
        q := [k[0]] + r;
        assert k == [k[0]] + k[1..] && q[1..] == r;
      }
  }

  /** A trie that is not empty holds some key. */
  lemma {:induction false} SomeKey(t: Tree) returns (k: Nibbles)
    requires WF(t) && !t.Nil?
    ensures Get(t, k) != []
  {
    match t
    case Leaf(key, _) => k := key;
    case Ext(key, child) =>
      var r := SomeKey(child);
      k := key + r;
      assert k[|key|..] == r;
    case Branch(cs, value) =>
      if value != [] {
        k := [];
      } else {
        var i, j := TwoOccupied(cs);
        var r := SomeKey(cs[i]);
        k := [i] + r;
      }
  }

  /** `u` reads like `t` without the key `k`. */
  ghost predicate IsRemoval(t: Tree, k: Nibbles, u: Tree)
    requires WF(t) && WF(u)
  {
    forall q :: Get(u, q) == if q == k then [] else Get(t, q)
  }

  lemma {:induction false} WipingIsRemoval(cs: seq<Tree>, value: Bytes)
    requires WF(Branch(cs, value))
    ensures IsRemoval(Branch(cs, value), [], Nil) <==> Count(cs) == 0
  {
    NoneOccupied(cs);
    if Count(cs) == 0 {
      forall q ensures Get(Nil, q) == if q == [] then [] else Get(Branch(cs, value), q) {
        assert q != [] ==> cs[q[0]].Nil?;
      }
    } else {
      var i: nibble :| !cs[i].Nil?;
      var r := SomeKey(cs[i]);
      var q := [i] + r;
      assert q[1..] == r;
      assert Get(Nil, q) != Get(Branch(cs, value), q);
    }
  }

  /** `del` as a whole is map removal exactly when `DelRootIsExact` holds. */
  lemma {:induction false} DelExactly(t: Tree, k: Nibbles)
    requires WF(t)
    ensures WF(DelRoot(t, k))
    ensures IsRemoval(t, k, DelRoot(t, k)) <==> DelRootIsExact(t, k)
  {
    DelIsWF(t, k);
    if k == [] && t.Branch? {
      WipingIsRemoval(t.children, t.value);
    } else if DelIsExact(t, k) {
      forall q ensures Get(Del(t, k), q) == if q == k then [] else Get(t, q) {
        GetDel(t, k, q);
      }
    } else {
      var q := DelWitness(t, k);
    }
  }

  // ---------------------------------------------------------------------------------------
  // Staying canonical
  // ---------------------------------------------------------------------------------------

  /** The key is that of the only child of a branch; a branch is then left with a value and no child. */
  ghost predicate Strands(t: Tree, k: Nibbles)
    requires WF(t)
  {
    match t
    case Nil => false
    case Leaf(_, _) => false
    case Ext(key, child) => key <= k && Strands(child, k[|key|..])
    case Branch(cs, _) =>
      && k != []
      && if cs[k[0]].Leaf? && cs[k[0]].key == k[1..] then Count(cs) == 1 else Strands(cs[k[0]], k[1..])
  }

  /** `del` keeps a trie canonical exactly when it strands no value, whatever else it gets wrong. */
  lemma {:induction false} DelCanonicalExactly(t: Tree, k: Nibbles)
    requires Canonical(t)
    ensures Canonical(Del(t, k)) <==> !Strands(t, k)
    ensures Canonical(DelRoot(t, k)) <==> !Strands(t, k)
  {
    match t
    case Nil =>
    case Leaf(_, _) =>
    case Ext(key, child) =>
      if key <= k {
        DelCanonicalExactly(child, k[|key|..]);
        DelIsWF(child, k[|key|..]);
        PrependIsWF(key, Del(child, k[|key|..]));
      }
    case Branch(cs, value) =>
      if k == [] {
        CollapseCanonicalExactly(cs, value);
      } else if cs[k[0]].Leaf? && cs[k[0]].key == k[1..] {
        CountUpdate(cs, k[0], Nil);
        CollapseCanonicalExactly(cs[k[0] := Nil], value);
      } else {
        var c := Del(cs[k[0]], k[1..]);
        DelCanonicalExactly(cs[k[0]], k[1..]);
        DelIsWF(cs[k[0]], k[1..]);
        CountUpdate(cs, k[0], c);
        assert cs[k[0] := c][k[0]] == c;
      }
  }

  lemma {:induction false} CollapseCanonicalExactly(cs: seq<Tree>, value: Bytes)
    requires |cs| == 16 && (forall i | 0 <= i < 16 :: Canonical(cs[i])) && (value != [] || Count(cs) >= 1)
    ensures Canonical(Collapse(cs, value)) <==> Count(cs) >= 1
  {
    if Count(cs) == 1 {
      PrependIsWF([OnlyChild(cs)], cs[OnlyChild(cs)]);
    }
  }

  // ---------------------------------------------------------------------------------------
  // Keys of equal length
  // ---------------------------------------------------------------------------------------

  lemma {:induction false} ForkKeyLength(slot: nibble, t: Tree, k: Nibbles, v: Bytes)
    requires k != [] && slot != k[0] && KeyLength(t, |k| - 1)
    ensures KeyLength(Fork([slot], t, [], k, v), |k|)
  {
    var cs := Nils(16)[slot := t][k[0] := Leaf(k[1..], v)];
    assert forall i | 0 <= i < 16 :: cs[i] == if i == k[0] then Leaf(k[1..], v) else if i == slot then t else Nil;
  }

  lemma {:induction false} SplitKeyLength(key: Nibbles, kept: Tree, k: Nibbles, v: Bytes)
    requires !(key <= k) && |key| <= |k| && v != []
    requires KeyLength(kept, |k| - MatchingNibbleLength(key, k) - 1)
    ensures var m := MatchingNibbleLength(key, k);
            m < |key| && KeyLength(Extend(key[..m], Fork([key[m]], kept, [], k[m..], v)), |k|)
  {
    var m := MatchingNibbleLength(key, k);
    LeavesInside(key, k);
    ForkKeyLength(key[m], kept, k[m..], v);
  }

  lemma {:induction false} PutKeyLengthAtLeaf(key: Nibbles, value: Bytes, k: Nibbles, v: Bytes)
    requires value != [] && v != [] && |key| == |k|
    ensures KeyLength(Put(Leaf(key, value), k, v), |k|)
  {
    if key != k {
      var m := MatchingNibbleLength(key, k);
      LeavesInside(key, k);
      SplitKeyLength(key, Leaf(key[m + 1..], value), k, v);
    }
  }

  lemma {:induction false} PutKeyLengthAtExt(key: Nibbles, child: Tree, k: Nibbles, v: Bytes)
    requires WF(Ext(key, child)) && v != [] && KeyLength(Ext(key, child), |k|) && !(key <= k)
    ensures KeyLength(Put(Ext(key, child), k, v), |k|)
  {
    var m := MatchingNibbleLength(key, k);
    LeavesInside(key, k);
    SplitKeyLength(key, Extend(key[m + 1..], child), k, v);
  }

  lemma {:induction false} PutKeyLength(t: Tree, k: Nibbles, v: Bytes)
    requires WF(t) && v != [] && KeyLength(t, |k|)
    ensures KeyLength(Put(t, k, v), |k|)
  {
    match t
    case Nil =>
    case Leaf(key, value) => PutKeyLengthAtLeaf(key, value, k, v);
    case Ext(key, child) =>
      if key <= k {
        PutKeyLength(child, k[|key|..], v);
      } else {
        PutKeyLengthAtExt(key, child, k, v);
      }
    case Branch(cs, value) => PutKeyLength(cs[k[0]], k[1..], v);
  }

  /** With keys of equal length no branch has a value, and `del` is always exact and canonical. */
  lemma {:induction false} DelEqualLength(t: Tree, k: Nibbles)
    requires Canonical(t) && KeyLength(t, |k|)
    ensures DelIsExact(t, k) && Canonical(Del(t, k)) && KeyLength(Del(t, k), |k|)
  {
    match t
    case Nil =>
    case Leaf(_, _) =>
    case Ext(key, child) =>
      if key <= k {
        DelEqualLength(child, k[|key|..]);
        DelIsWF(child, k[|key|..]);
        PrependIsWF(key, Del(child, k[|key|..]));
      }
    case Branch(cs, value) =>
      var c := cs[k[0]];
      if c.Leaf? && c.key == k[1..] {
        CollapseEqualLength(cs, k[0], |k|);
      } else {
        DelEqualLength(c, k[1..]);
        DelIsWF(c, k[1..]);
        ReplaceEqualLength(cs, k[0], Del(c, k[1..]), |k|);
      }
  }

  lemma {:induction false} CollapseEqualLength(cs: seq<Tree>, i: nibble, n: nat)
    requires Canonical(Branch(cs, [])) && KeyLength(Branch(cs, []), n) && !cs[i].Nil?
    ensures var t := Collapse(cs[i := Nil], []);
            Canonical(t) && KeyLength(t, n)
  {
    CountUpdate(cs, i, Nil);
    var cs' := cs[i := Nil];
    if Count(cs') == 1 {
      PrependIsWF([OnlyChild(cs')], cs'[OnlyChild(cs')]);
    }
  }

  lemma {:induction false} ReplaceEqualLength(cs: seq<Tree>, i: nibble, t: Tree, n: nat)
    requires Canonical(Branch(cs, [])) && KeyLength(Branch(cs, []), n)
    requires Canonical(t) && KeyLength(t, n - 1) && (t.Nil? <==> cs[i].Nil?)
    ensures Canonical(Branch(cs[i := t], [])) && KeyLength(Branch(cs[i := t], []), n)
  {
    CountUpdate(cs, i, t);
  }
}
