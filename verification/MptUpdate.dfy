/** What `_updateNode` leaves on the stack, and that it plugs together to what `Trie.Put` gives. */
module MptUpdate {
  import opened Rlp
  import opened Trie
  import opened MptNode
  import opened MptPath
  import opened MptStore
  import opened MptWalk

  /** New nodes at the end of a path make the stack ready, if together they are what `Put` gives. */
  lemma {:induction false} ReadyBelow(h: Hash, universe: iset<Bytes>, db: DB, t: Tree, key: Nibbles, v: Bytes,
                                      stack: seq<Node>, ops: seq<BatchOp>, extra: seq<Frame>, more: seq<Node>,
                                        bottom: Tree)
    requires CollisionFree(h, universe) && DbOk(h, universe, db) && OpsOk(h, universe, ops)
    requires WF(t) && !t.Nil? && RootStored(h, db, t) && v != [] && Within(h, universe, Put(t, key, v))
    requires AllMatch(h, stack, Frames(t, key))
    requires AllOk(extra) && Follows(h, more, extra, bottom) && WF(bottom)
    requires Rest(t, key) == KeyOf(extra) + TailKey(bottom)
    requires Put(Target(t, key), Rest(t, key), v) == Plug(extra, bottom)
    requires KidsStored(h, Batch(db, ops), bottom) && SiblingsStored(h, Batch(db, ops), extra)
    ensures Ready(h, universe, db, key, stack + more, ops, Frames(t, key) + extra, bottom)
    ensures Plug(Frames(t, key) + extra, bottom) == Put(t, key, v)
  {
    var frames := Frames(t, key);
    PutBelow(t, key, v, extra, bottom);
    PutIsWF(t, key, v);
    FollowsBelow(h, stack, frames, more, extra, bottom);
    PathSiblings(h, universe, db, ops, t, key);
    SiblingsConcat(h, Batch(db, ops), frames, extra);
  }

  lemma {:induction false} SiblingsConcat(h: Hash, db: DB, frames: seq<Frame>, extra: seq<Frame>)
    requires SiblingsStored(h, db, frames) && SiblingsStored(h, db, extra)
    ensures SiblingsStored(h, db, frames + extra)
  {}

  lemma {:induction false} PutBelow(t: Tree, key: Nibbles, v: Bytes, extra: seq<Frame>, bottom: Tree)
    requires WF(t) && v != [] && AllOk(extra)
    requires Rest(t, key) == KeyOf(extra) + TailKey(bottom)
    requires Put(Target(t, key), Rest(t, key), v) == Plug(extra, bottom)
    ensures AllOk(Frames(t, key) + extra)
    ensures Plug(Frames(t, key) + extra, bottom) == Put(t, key, v)
    ensures key == KeyOf(Frames(t, key) + extra) + TailKey(bottom)
  {
    PathFits(t, key);
    PutAtTarget(t, key, v);
    PlugSplit(Frames(t, key), extra, bottom);
    Associate(KeyOf(Frames(t, key)), KeyOf(extra), TailKey(bottom));
  }

  /** Everything beside the path, and below its end, is stored. */
  lemma {:induction false} PathSiblings(h: Hash, universe: iset<Bytes>, db: DB, ops: seq<BatchOp>, t: Tree,
                                        key: Nibbles)
    requires CollisionFree(h, universe) && DbOk(h, universe, db) && OpsOk(h, universe, ops)
    requires WF(t) && !t.Nil? && RootStored(h, db, t)
    ensures SiblingsStored(h, Batch(db, ops), Frames(t, key))
    ensures KidsStored(h, db, Target(t, key)) && KidsStored(h, Batch(db, ops), Target(t, key))
  {
    PathFits(t, key);
    PlugStored(h, db, Frames(t, key), Target(t, key));
    BatchExtends(h, universe, db, ops);
    SiblingsExtend(h, db, Batch(db, ops), Frames(t, key));
    StoredExtends(h, db, Batch(db, ops), Target(t, key));
  }

  /** `new BranchMPTNode()`. */
  function Nulls(n: nat): (r: seq<Item>)
    ensures |r| == n && forall i | 0 <= i < n :: r[i] == NULL
  {
    if n == 0 then [] else Nulls(n - 1) + [NULL]
  }

  /** A fresh branch with one slot filled. */
  lemma {:induction false} FreshBranch(h: Hash, slot: nibble, kept: Tree, value: Bytes)
    ensures NodeOf(h, Branch(Nils(16)[slot := kept], value)) == BranchNode(Nulls(16)[slot := RefOf(h, kept)], value)
    ensures NodeOf(h, Branch(Nils(16), value)) == BranchNode(Nulls(16), value)
  {
    assert NodeOf(h, Branch(Nils(16)[slot := kept], value)).branches == Nulls(16)[slot := RefOf(h, kept)];
    assert NodeOf(h, Branch(Nils(16), value)).branches == Nulls(16);
  }

  /** A new value for the leaf at the end of the path. */
  lemma {:induction false} ReadyLeaf(h: Hash, universe: iset<Bytes>, db: DB, t: Tree, key: Nibbles, v: Bytes,
                                     stack: seq<Node>)
    requires CollisionFree(h, universe) && DbOk(h, universe, db)
    requires WF(t) && !t.Nil? && RootStored(h, db, t) && v != [] && Within(h, universe, Put(t, key, v))
    requires AllMatch(h, stack, Frames(t, key))
    requires Target(t, key).Leaf? && Target(t, key).key == Rest(t, key)
    ensures Ready(h, universe, db, key, stack + [LeafNode(Rest(t, key), v)], [], Frames(t, key) + [],
                  Leaf(Rest(t, key), v))
    ensures Plug(Frames(t, key) + [], Leaf(Rest(t, key), v)) == Put(t, key, v)
  {
    ReadyBelow(h, universe, db, t, key, v, stack, [], [], [LeafNode(Rest(t, key), v)], Leaf(Rest(t, key), v));
  }

  /** A new value for the branch at the end of the path. */
  lemma {:induction false} ReadyBranchValue(h: Hash, universe: iset<Bytes>, db: DB, t: Tree, key: Nibbles, v: Bytes,
                                            stack: seq<Node>)
    requires CollisionFree(h, universe) && DbOk(h, universe, db)
    requires WF(t) && !t.Nil? && RootStored(h, db, t) && v != [] && Within(h, universe, Put(t, key, v))
    requires AllMatch(h, stack, Frames(t, key))
    requires Target(t, key).Branch? && Rest(t, key) == []
    ensures var bottom := Branch(Target(t, key).children, v);
            && NodeOf(h, bottom) == BranchNode(NodeOf(h, Target(t, key)).branches, v)
            && Ready(h, universe, db, key, stack + [NodeOf(h, bottom)], [], Frames(t, key) + [], bottom)
            && Plug(Frames(t, key) + [], bottom) == Put(t, key, v)
  {
    var bottom := Branch(Target(t, key).children, v);
    PathSiblings(h, universe, db, [], t, key);
    ReadyBelow(h, universe, db, t, key, v, stack, [], [], [NodeOf(h, bottom)], bottom);
  }

  /** A new leaf in an empty slot of the branch at the end of the path. */
  lemma {:induction false} ReadyBranchSlot(h: Hash, universe: iset<Bytes>, db: DB, t: Tree, key: Nibbles, v: Bytes,
                                           stack: seq<Node>)
    requires CollisionFree(h, universe) && DbOk(h, universe, db)
    requires WF(t) && !t.Nil? && RootStored(h, db, t) && v != [] && Within(h, universe, Put(t, key, v))
    requires AllMatch(h, stack, Frames(t, key))
    requires Target(t, key).Branch? && Rest(t, key) != []
    ensures var target, rest := Target(t, key), Rest(t, key);
            var frames, bottom := Frames(t, key) + [BranchFrame(target.children, target.value, rest[0])],
              Leaf(rest[1..], v);
            && Ready(h, universe, db, key, stack + [NodeOf(h, target), LeafNode(rest[1..], v)], [], frames, bottom)
            && Plug(frames, bottom) == Put(t, key, v)
  {
    var target, rest := Target(t, key), Rest(t, key);
    var f, bottom := BranchFrame(target.children, target.value, rest[0]), Leaf(rest[1..], v);
    var more := [NodeOf(h, target), LeafNode(rest[1..], v)];
    PathSiblings(h, universe, db, [], t, key);
    PlugOne([f], bottom);
    assert more[..1] == [NodeOf(h, target)];
    ReadyBelow(h, universe, db, t, key, v, stack, [], [f], more, bottom);
  }

  /** The branch `_updateNode` makes where a new key leaves the key of the last node: its one old
      slot, `kept`, and its value. */
  predicate IsFork(put: Tree, rest: Nibbles, v: Bytes, m: nat, cs: seq<Tree>, value: Bytes) {
    && m <= |rest| && |cs| == 16
    && put == Extend(rest[..m],
         if m == |rest| then Branch(cs, v) else Branch(cs[rest[m] := Leaf(rest[m + 1..], v)], value))
  }

  lemma {:induction false} ForkAtLeaf(key: Nibbles, value: Bytes, rest: Nibbles, v: Bytes)
    requires value != [] && v != [] && key != rest && !(key <= rest)
    ensures var m := MatchingNibbleLength(key, rest);
            && m < |key|
            && IsFork(Put(Leaf(key, value), rest, v), rest, v, m, Nils(16)[key[m] := Leaf(key[m + 1..], value)], [])
  {
    LeavesInside(key, rest);
    var m := MatchingNibbleLength(key, rest);
    if m < |rest| {
      assert rest[m..][0] == rest[m] && rest[m..][1..] == rest[m + 1..];
    }
  }

  lemma {:induction false} ForkBelowLeaf(key: Nibbles, value: Bytes, rest: Nibbles, v: Bytes)
    requires value != [] && v != [] && key < rest
    ensures MatchingNibbleLength(key, rest) == |key|
    ensures IsFork(Put(Leaf(key, value), rest, v), rest, v, |key|, Nils(16), value)
  {
    var m := |key|;
    assert rest[m..][0] == rest[m] && rest[m..][1..] == rest[m + 1..];
    assert key[..m] == rest[..m];
  }

  lemma {:induction false} ForkAtExt(key: Nibbles, child: Tree, rest: Nibbles, v: Bytes)
    requires WF(Ext(key, child)) && v != [] && !(key <= rest)
    ensures var m := MatchingNibbleLength(key, rest);
            && m < |key|
            && IsFork(Put(Ext(key, child), rest, v), rest, v, m, Nils(16)[key[m] := Extend(key[m + 1..], child)], [])
  {
    LeavesInside(key, rest);
    var m := MatchingNibbleLength(key, rest);
    if m < |rest| {
      assert rest[m..][0] == rest[m] && rest[m..][1..] == rest[m + 1..];
    }
  }

  /** The frames for the new nodes of a fork: an extension unless its key is empty, and the branch
      unless the new value is the branch's own. */
  function ForkTop(rest: Nibbles, m: nat): seq<Frame>
    requires m <= |rest|
  {
    if m == 0 then [] else [ExtFrame(rest[..m])]
  }

  function ForkLow(rest: Nibbles, m: nat, cs: seq<Tree>, value: Bytes): seq<Frame>
    requires m <= |rest|
  {
    if m == |rest| then [] else [BranchFrame(cs, value, rest[m])]
  }

  function ForkBottom(rest: Nibbles, m: nat, cs: seq<Tree>, v: Bytes): Tree
    requires m <= |rest|
  {
    if m == |rest| then Branch(cs, v) else Leaf(rest[m + 1..], v)
  }

  lemma {:induction false} ForkTopFits(rest: Nibbles, m: nat, t: Tree)
    requires m <= |rest|
    ensures AllOk(ForkTop(rest, m)) && KeyOf(ForkTop(rest, m)) == rest[..m]
    ensures Plug(ForkTop(rest, m), t) == Extend(rest[..m], t)
  {
    PlugOne(ForkTop(rest, m), t);
  }

  lemma {:induction false} ForkLowFits(rest: Nibbles, m: nat, cs: seq<Tree>, value: Bytes, v: Bytes)
    requires m <= |rest| && |cs| == 16
    ensures var low, bottom := ForkLow(rest, m, cs, value), ForkBottom(rest, m, cs, v);
            && AllOk(low) && KeyOf(low) + TailKey(bottom) == rest[m..]
            && Plug(low, bottom) ==
               if m == |rest| then Branch(cs, v) else Branch(cs[rest[m] := Leaf(rest[m + 1..], v)], value)
  {
    PlugOne(ForkLow(rest, m, cs, value), ForkBottom(rest, m, cs, v));
  }

  lemma {:induction false} ForkFits(put: Tree, rest: Nibbles, v: Bytes, m: nat, cs: seq<Tree>, value: Bytes)
    requires IsFork(put, rest, v, m, cs, value)
    ensures var extra, bottom := ForkTop(rest, m) + ForkLow(rest, m, cs, value), ForkBottom(rest, m, cs, v);
            && AllOk(extra) && put == Plug(extra, bottom)
            && rest == KeyOf(extra) + TailKey(bottom)
  {
    var top, low, bottom := ForkTop(rest, m), ForkLow(rest, m, cs, value), ForkBottom(rest, m, cs, v);
    ForkLowFits(rest, m, cs, value, v);
    ForkTopFits(rest, m, Plug(low, bottom));
    PlugSplit(top, low, bottom);
    Associate(KeyOf(top), KeyOf(low), TailKey(bottom));
    assert rest == rest[..m] + rest[m..];
  }

  /** The old subtree stays within the universe of what may be hashed. */
  lemma {:induction false} ForkWithin(h: Hash, universe: iset<Bytes>, put: Tree, rest: Nibbles, v: Bytes, m: nat,
                                      slot: nibble, kept: Tree, value: Bytes)
    requires Within(h, universe, put)
    requires IsFork(put, rest, v, m, Nils(16)[slot := kept], value)
    requires m < |rest| ==> slot != rest[m]
    ensures Within(h, universe, kept)
  {
    var cs := Nils(16)[slot := kept];
    ForkLowFits(rest, m, cs, value, v);
    ForkTopFits(rest, m, Plug(ForkLow(rest, m, cs, value), ForkBottom(rest, m, cs, v)));
    var top := if m == |rest| then Branch(cs, v) else Branch(cs[rest[m] := Leaf(rest[m + 1..], v)], value);
    PlugWithin(h, universe, ForkTop(rest, m), top);
    assert Within(h, universe, top);
    assert top.children[slot] == kept;
  }

  /** Formatting the old subtree under its shorter key. */
  lemma {:induction false} KeptStored(h: Hash, universe: iset<Bytes>, db: DB, kept: Tree)
    requires CollisionFree(h, universe) && DbOk(h, universe, db)
    requires !kept.Nil? && Within(h, universe, kept) && KidsStored(h, db, kept)
    ensures var (ref, ops) := FormatNode(h, NodeOf(h, kept), false);
            ref == RefOf(h, kept) && OpsOk(h, universe, ops) && Stored(h, Batch(db, ops), kept)
  {
    FormatStores(h, universe, db, [], kept, false);
    var (ref, ops) := FormatNode(h, NodeOf(h, kept), false);
    assert [] + ops == ops;
  }

  /** The old subtree of a fork. */
  function Kept(target: Tree, m: nat): Tree
    requires (target.Leaf? || target.Ext?) && m < |target.key|
  {
    if target.Leaf? then Leaf(target.key[m + 1..], target.value) else Extend(target.key[m + 1..], target.child)
  }

  /** The reference to the old subtree: a leaf or an extension is formatted under its shorter key, and
      an extension with nothing left of its key gives way to its child. */
  function ShrunkRef(h: Hash, lastNode: Node, lastKey: Nibbles): (Item, seq<BatchOp>)
    requires !lastNode.BranchNode?
  {
    if lastNode.LeafNode? then FormatNode(h, LeafNode(lastKey, lastNode.value), false)
    else if lastKey != [] then FormatNode(h, ExtNode(lastKey, lastNode.ref), false)
    else (lastNode.ref, [])
  }

  /** The children, the value and the queued operations of a new branch before the new key is added. */
  function ForkRow(target: Tree, m: nat): seq<Tree>
    requires (target.Leaf? || target.Ext?) && m <= |target.key|
  {
    if m == |target.key| then Nils(16) else Nils(16)[target.key[m] := Kept(target, m)]
  }

  function ForkValue(target: Tree, m: nat): Bytes
    requires (target.Leaf? || target.Ext?) && m <= |target.key|
  {
    if m == |target.key| && target.Leaf? then target.value else []
  }

  ghost function ForkOps(h: Hash, target: Tree, m: nat): seq<BatchOp>
    requires (target.Leaf? || target.Ext?) && m <= |target.key|
  {
    if m == |target.key| then [] else ShrunkRef(h, NodeOf(h, target), target.key[m + 1..]).1
  }

  lemma {:induction false} ForkKeeps(h: Hash, universe: iset<Bytes>, db: DB, target: Tree, rest: Nibbles, v: Bytes)
    requires CollisionFree(h, universe) && DbOk(h, universe, db)
    requires WF(target) && v != []
             && (if target.Leaf? then target.key != rest else target.Ext? && !(target.key <= rest))
    requires KidsStored(h, db, target) && Within(h, universe, Put(target, rest, v))
    ensures var m := MatchingNibbleLength(target.key, rest);
            && IsFork(Put(target, rest, v), rest, v, m, ForkRow(target, m), ForkValue(target, m))
            && OpsOk(h, universe, ForkOps(h, target, m))
            && RowStored(h, Batch(db, ForkOps(h, target, m)), ForkRow(target, m))
  {
    var m := MatchingNibbleLength(target.key, rest);
    if target.key <= rest {
      ForkBelowLeaf(target.key, target.value, rest, v);
    } else {
      if target.Leaf? {
        ForkAtLeaf(target.key, target.value, rest, v);
      } else {
        ForkAtExt(target.key, target.child, rest, v);
      }
      ForkWithin(h, universe, Put(target, rest, v), rest, v, m, target.key[m], Kept(target, m), []);
      ForkRowStored(h, universe, db, target, m);
    }
  }

  lemma {:induction false} ForkRowStored(h: Hash, universe: iset<Bytes>, db: DB, target: Tree, m: nat)
    requires CollisionFree(h, universe) && DbOk(h, universe, db)
    requires WF(target) && (target.Leaf? || target.Ext?) && m < |target.key|
    requires KidsStored(h, db, target) && Within(h, universe, Kept(target, m))
    ensures OpsOk(h, universe, ForkOps(h, target, m))
    ensures RowStored(h, Batch(db, ForkOps(h, target, m)), ForkRow(target, m))
  {
    var kept := Kept(target, m);
    if target.Ext? && m + 1 == |target.key| {
      assert kept == target.child && ForkOps(h, target, m) == [];
    } else {
      KeptStored(h, universe, db, kept);
      assert ForkOps(h, target, m) == FormatNode(h, NodeOf(h, kept), false).1;
    }
    OneSlotStored(h, Batch(db, ForkOps(h, target, m)), target.key[m], kept);
  }

  /** The shrunk reference is the reference to the old subtree. */
  lemma {:induction false} ShrunkIsKept(h: Hash, target: Tree, m: nat)
    requires WF(target) && (target.Leaf? || target.Ext?) && m < |target.key|
    ensures ShrunkRef(h, NodeOf(h, target), target.key[m + 1..]).0 == RefOf(h, Kept(target, m))
  {}

  ghost predicate RowStored(h: Hash, db: DB, cs: seq<Tree>) {
    forall i | 0 <= i < |cs| :: Stored(h, db, cs[i])
  }

  lemma {:induction false} OneSlotStored(h: Hash, db: DB, slot: nibble, kept: Tree)
    requires Stored(h, db, kept)
    ensures RowStored(h, db, Nils(16)[slot := kept])
  {
    var cs := Nils(16)[slot := kept];
    forall i | 0 <= i < 16 ensures Stored(h, db, cs[i]) {
      assert cs[i] == if i == slot then kept else Nil;
    }
  }

  /** The nodes `_updateNode` pushes for a fork. */
  ghost function ForkNodes(h: Hash, rest: Nibbles, m: nat, cs: seq<Tree>, value: Bytes, v: Bytes,
                           placeholder: Item): seq<Node>
    requires m <= |rest|
  {
    (if m == 0 then [] else [ExtNode(rest[..m], placeholder)]) +
    (if m == |rest| then [NodeOf(h, Branch(cs, v))]
     else [NodeOf(h, Branch(cs, value)), LeafNode(rest[m + 1..], v)])
  }

  lemma {:induction false} ForkFollows(h: Hash, rest: Nibbles, m: nat, cs: seq<Tree>, value: Bytes, v: Bytes,
                                       placeholder: Item)
    requires m <= |rest| && |cs| == 16
    ensures Follows(h, ForkNodes(h, rest, m, cs, value, v, placeholder),
                    ForkTop(rest, m) + ForkLow(rest, m, cs, value), ForkBottom(rest, m, cs, v))
  {
    var top := if m == 0 then [] else [ExtNode(rest[..m], placeholder)];
    var low := if m == |rest| then [NodeOf(h, Branch(cs, v))]
      else [NodeOf(h, Branch(cs, value)), LeafNode(rest[m + 1..], v)];
    if m < |rest| {
      assert low[..1] == [NodeOf(h, Branch(cs, value))];
    }
    FollowsBelow(h, top, ForkTop(rest, m), low, ForkLow(rest, m, cs, value), ForkBottom(rest, m, cs, v));
  }

  /** A fork at the end of the path. */
  lemma {:induction false} ReadyFork(h: Hash, universe: iset<Bytes>, db: DB, t: Tree, key: Nibbles, v: Bytes,
                                     stack: seq<Node>,
                                     ops: seq<BatchOp>, m: nat, cs: seq<Tree>, value: Bytes, placeholder: Item)
    requires CollisionFree(h, universe) && DbOk(h, universe, db) && OpsOk(h, universe, ops)
    requires WF(t) && !t.Nil? && RootStored(h, db, t) && v != [] && Within(h, universe, Put(t, key, v))
    requires AllMatch(h, stack, Frames(t, key))
    requires IsFork(Put(Target(t, key), Rest(t, key), v), Rest(t, key), v, m, cs, value)
    requires RowStored(h, Batch(db, ops), cs)
    ensures var rest := Rest(t, key);
            var frames := Frames(t, key) + (ForkTop(rest, m) + ForkLow(rest, m, cs, value));
            && Ready(h, universe, db, key, stack + ForkNodes(h, rest, m, cs, value, v, placeholder), ops, frames,
                     ForkBottom(rest, m, cs, v))
            && Plug(frames, ForkBottom(rest, m, cs, v)) == Put(t, key, v)
  {
    var target, rest := Target(t, key), Rest(t, key);
    var extra, bottom := ForkTop(rest, m) + ForkLow(rest, m, cs, value), ForkBottom(rest, m, cs, v);
    ForkFits(Put(target, rest, v), rest, v, m, cs, value);
    ForkFollows(h, rest, m, cs, value, v, placeholder);
    PutIsWF(t, key, v);
    PutIsWF(target, rest, v);
    PlugIsWF(extra, bottom);
    ReadyBelow(h, universe, db, t, key, v, stack, ops, extra, ForkNodes(h, rest, m, cs, value, v, placeholder), bottom);
  }
}
