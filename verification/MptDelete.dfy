/** What `_deleteNode` leaves on the stack, and that it plugs together to what `Trie.Del` gives. */
module MptDelete {
  import opened Rlp
  import opened Trie
  import opened Wrappers
  import opened MptNode
  import opened MptPath
  import opened MptStore
  import opened MptWalk

  // ---------------------------------------------------------------------------------------
  // The children that are left
  // ---------------------------------------------------------------------------------------

  /** The occupied slots of a branch, as `getChildren` lists them. */
  function ChildrenOf(branches: seq<Item>): seq<(nat, Item)> {
    if branches == [] then []
    else
      var n := |branches| - 1;
      ChildrenOf(branches[..n]) + if branches[n] == NULL then [] else [(n, branches[n])]
  }

  lemma {:induction false} ChildrenCounted(h: Hash, universe: iset<Bytes>, cs: seq<Tree>, branches: seq<Item>)
    requires CollisionFree(h, universe) && |branches| == |cs|
    requires forall i | 0 <= i < |cs| :: branches[i] == RefOf(h, cs[i])
    ensures |ChildrenOf(branches)| == Count(cs)
    ensures Count(cs) == 1 ==> ChildrenOf(branches) == [(OnlyChild(cs), RefOf(h, cs[OnlyChild(cs)]))]
  {
    if cs != [] {
      var n := |cs| - 1;
      RefShape(h, universe, cs[n]);
      ChildrenCounted(h, universe, cs[..n], branches[..n]);
    }
  }

  // ---------------------------------------------------------------------------------------
  // Merging the last child into what is above the branch
  // ---------------------------------------------------------------------------------------

  ghost predicate EndsInExt(frames: seq<Frame>) {
    frames != [] && frames[|frames| - 1].ExtFrame?
  }

  /** The frames above the place of the merged node. */
  ghost function Upper(frames: seq<Frame>): seq<Frame> {
    if EndsInExt(frames) then frames[..|frames| - 1] else frames
  }

  /** The nibbles between those frames and the last child. */
  ghost function Joint(frames: seq<Frame>, i: nibble): Nibbles {
    (if EndsInExt(frames) then frames[|frames| - 1].nibbles else []) + [i]
  }

  ghost function MergedFrames(frames: seq<Frame>, i: nibble, c: Tree): seq<Frame> {
    Upper(frames) + if c.Branch? then [ExtFrame(Joint(frames, i))] else []
  }

  ghost function MergedBottom(frames: seq<Frame>, i: nibble, c: Tree): Tree {
    if c.Branch? then c else Prepend(Joint(frames, i), c)
  }

  lemma {:induction false} PrependTwice(a: Nibbles, i: nibble, c: Tree)
    requires !c.Nil?
    ensures Prepend(a, Prepend([i], c)) == Prepend(a + [i], c)
    ensures Prepend([] + [i], c) == Prepend([i], c)
  {
    match c
    case Leaf(k, _) => Associate(a, [i], k);
    case Ext(k, _) => Associate(a, [i], k);
    case _ =>
  }

  lemma {:induction false} JointKey(frames: seq<Frame>, i: nibble)
    requires AllOk(frames)
    ensures KeyOf(Upper(frames)) + Joint(frames, i) == KeyOf(frames) + [i]
  {
    if EndsInExt(frames) {
      SplitLast(frames, Nil);
      Associate(KeyOf(Upper(frames)), frames[|frames| - 1].nibbles, [i]);
    } else {
      assert [] + [i] == [i];
    }
  }

  /** The merged path is the old one with the branch taken out. */
  lemma {:induction false} MergedFits(frames: seq<Frame>, i: nibble, c: Tree)
    requires AllOk(frames) && !c.Nil?
    ensures var frames', bottom := MergedFrames(frames, i, c), MergedBottom(frames, i, c);
            && AllOk(frames')
            && Plug(frames', bottom) == PlugMerged(frames, Prepend([i], c))
            && KeyOf(frames') + TailKey(bottom) == KeyOf(frames) + ([i] + TailKey(c))
  {
    var upper, joint := Upper(frames), Joint(frames, i);
    JointKey(frames, i);
    PrependTwice(if EndsInExt(frames) then frames[|frames| - 1].nibbles else [], i, c);
    assert PlugMerged(frames, Prepend([i], c)) == Plug(upper, Prepend(joint, c));
    if c.Branch? {
      var low := [ExtFrame(joint)];
      PlugOne(low, c);
      PlugSplit(upper, low, c);
    } else {
      assert upper + [] == upper;
    }
    Associate(KeyOf(upper), joint, TailKey(c));
    Associate(KeyOf(frames), [i], TailKey(c));
  }

  // ---------------------------------------------------------------------------------------
  // The stack after the occupant is gone
  // ---------------------------------------------------------------------------------------

  function Pushed(stack: seq<Node>, parent: Option<Node>): seq<Node> {
    if parent.Some? then stack + [parent.value] else stack
  }

  /** The branch that lost an occupant, the key up to it, and the nodes above it. */
  ghost predicate Losing(h: Hash, t: Tree, key: Nibbles, k: Nibbles, lastNode: Node, stack: seq<Node>,
                         parent: Option<Node>)
    requires WF(t) && Found(t, key) && !t.Leaf?
  {
    && (parent.None? ==> stack == [])
    && AllMatch(h, Pushed(stack, parent), Above(t, key))
    && k == KeyOf(Above(t, key))
    && lastNode == NodeOf(h, Branch(Emptied(t, key), LosingBranch(t, key).value))
  }

  /** `value(v)` of a branch: `null` leaves the value as it is. */
  function WithValue(n: Node, v: Option<Bytes>): Node
    requires n.BranchNode?
  {
    if v.Some? then BranchNode(n.branches, v.value) else n
  }

  /** The path ends at a branch. */
  lemma {:induction false} LosesValue(h: Hash, t: Tree, key: Nibbles, stack: seq<Node>)
    requires WF(t) && Found(t, key) && Target(t, key).Branch? && Frames(t, key) != []
    requires AllMatch(h, stack, Frames(t, key))
    ensures Losing(h, t, key, key, NodeOf(h, Target(t, key)), stack[..|stack| - 1], Some(stack[|stack| - 1]))
  {
    hide AllMatch, NodeOf, KeyOf, Plug, WF, Frames;
    PathFits(t, key);
    assert KeyOf(Frames(t, key)) + [] == KeyOf(Frames(t, key));
    LastApart(h, stack, Frames(t, key));
  }

  lemma {:induction false} LastApart(h: Hash, stack: seq<Node>, frames: seq<Frame>)
    requires AllMatch(h, stack, frames) && frames != []
    ensures stack != [] && stack[..|stack| - 1] + [stack[|stack| - 1]] == stack
  {}

  /** The key up to the leaf at the end of the path. */
  lemma {:induction false} KeyToLeaf(t: Tree, key: Nibbles)
    requires WF(t) && !t.Leaf? && Found(t, key) && Target(t, key).Leaf?
    ensures Frames(t, key) != [] && |Target(t, key).key| <= |key|
    ensures var frames := Frames(t, key);
            var f, k := frames[|frames| - 1], key[..|key| - |Target(t, key).key|];
            && f.BranchFrame? && k != [] && k[|k| - 1] == f.index && k[..|k| - 1] == KeyOf(Above(t, key))
  {
    FoundLeafHasBranch(t, key);
    PathFits(t, key);
    var frames, target := Frames(t, key), Target(t, key);
    SplitLast(frames, target);
    assert key[..|key| - |target.key|] == KeyOf(frames) == KeyOf(Above(t, key)) + [frames[|frames| - 1].index];
  }

  /** The path ends at a leaf. */
  lemma {:induction false} LosesLeaf(h: Hash, t: Tree, key: Nibbles, above: seq<Node>, branch: Node, slot: nibble)
    requires WF(t) && !t.Leaf? && Found(t, key) && Target(t, key).Leaf? && Frames(t, key) != []
    requires AllMatch(h, above + [branch], Frames(t, key))
    requires var f := Frames(t, key)[|Frames(t, key)| - 1];
             f.BranchFrame? && slot == f.index
    ensures branch.BranchNode? && |branch.branches| == 16
    ensures var lastNode, k := BranchNode(branch.branches[slot := NULL], branch.value), KeyOf(Above(t, key));
            && (above == [] ==> Losing(h, t, key, k, lastNode, [], None))
            && (above != [] ==> Losing(h, t, key, k, lastNode, above[..|above| - 1], Some(above[|above| - 1])))
  {
    var frames, target := Frames(t, key), Target(t, key);
    var f := frames[|frames| - 1];
    assert (above + [branch])[|above|] == branch;
    assert Matches(h, branch, f);
    FilledNode(h, branch, f, Nil);
    assert AllMatch(h, above, frames[..|frames| - 1]) by {
      forall i | 0 <= i < |above| ensures Matches(h, above[i], frames[i]) {
        assert (above + [branch])[i] == above[i];
      }
    }
    if above != [] {
      assert above[..|above| - 1] + [above[|above| - 1]] == above;
    }
  }

  /** What is stored, and what may be hashed, around the branch. */
  lemma {:induction false} LosingStored(h: Hash, universe: iset<Bytes>, db: DB, t: Tree, key: Nibbles)
    requires WF(t) && Found(t, key) && !t.Leaf?
    requires RootStored(h, db, t) && Within(h, universe, t)
    ensures SiblingsStored(h, db, Above(t, key))
    ensures |Emptied(t, key)| == 16
    ensures forall i | 0 <= i < 16 ::
              var c := Emptied(t, key)[i];
              WF(c) && Stored(h, db, c) && Within(h, universe, c)
  {
    LosingFits(t, key);
    var above, branch, cs := Above(t, key), LosingBranch(t, key), Emptied(t, key);
    PlugStored(h, db, above, branch);
    PlugWithin(h, universe, above, branch);
    PlugIsWF(above, branch);
    EmptiedIsPart(t, key);
    forall i | 0 <= i < 16 ensures WF(cs[i]) && Stored(h, db, cs[i]) && Within(h, universe, cs[i]) {
      assert cs[i] == branch.children[i] || cs[i] == Nil;
    }
  }

  lemma {:induction false} EmptiedIsPart(t: Tree, key: Nibbles)
    requires WF(t) && Found(t, key) && !t.Leaf?
    ensures |Emptied(t, key)| == |LosingBranch(t, key).children| == 16
    ensures var before, after := LosingBranch(t, key).children, Emptied(t, key);
            forall i | 0 <= i < 16 :: after[i] == before[i] || after[i] == Nil
  {
    LosingFits(t, key);
    PlugIsWF(Above(t, key), LosingBranch(t, key));
  }

  /** With no merge to do, what is left of the branch goes where it was. */
  lemma {:induction false} PlainFits(t: Tree, key: Nibbles)
    requires WF(t) && Found(t, key) && !t.Leaf? && Frames(t, key) != []
    requires |Emptied(t, key)| == 16 && Count(Emptied(t, key)) != 1
    ensures AllOk(Above(t, key))
    ensures Plug(Above(t, key), Branch(Emptied(t, key), LosingBranch(t, key).value)) == Del(t, key)
  {
    DelAtTarget(t, key);
    LosingFits(t, key);
    var above, branch := Above(t, key), Branch(Emptied(t, key), LosingBranch(t, key).value);
    if EndsInExt(above) {
      SplitLast(above, branch);
      SplitLast(above, LosingBranch(t, key));
      PlugIsWF(above[..|above| - 1], Ext(above[|above| - 1].nibbles, LosingBranch(t, key)));
    }
  }

  lemma {:induction false} ReadyPlain(h: Hash, universe: iset<Bytes>, db: DB, t: Tree, key: Nibbles, k: Nibbles,
                                      lastNode: Node, stack: seq<Node>, parent: Option<Node>)
    requires WF(t) && Found(t, key) && !t.Leaf? && Frames(t, key) != []
    requires RootStored(h, db, t) && Within(h, universe, t) && Within(h, universe, Del(t, key))
    requires Losing(h, t, key, k, lastNode, stack, parent)
    requires |Emptied(t, key)| == 16 && Count(Emptied(t, key)) != 1
    ensures var bottom := Branch(Emptied(t, key), LosingBranch(t, key).value);
            && Ready(h, universe, db, k, Pushed(stack, parent) + [lastNode], [], Above(t, key), bottom)
            && Plug(Above(t, key), bottom) == Del(t, key)
  {
    PlainFits(t, key);
    DelIsWF(t, key);
    LosingStored(h, universe, db, t, key);
    var bottom := Branch(Emptied(t, key), LosingBranch(t, key).value);
    PlugIsWF(Above(t, key), bottom);
    assert (Pushed(stack, parent) + [lastNode])[..|Above(t, key)|] == Pushed(stack, parent);
    assert k + [] == k;
  }

  /** What `processBranchMPTNode` does: the key, and the stack. `i` is the slot of the last child, and
      `child` is its node. */
  function Processed(key: Nibbles, i: nibble, child: Node, parent: Option<Node>, stack: seq<Node>): (Nibbles, seq<Node>)
    requires parent.Some? ==> !parent.value.LeafNode?
  {
    if parent.Some? && parent.value.ExtNode? then
      if child.BranchNode? then (key + [i], stack + [ExtNode(parent.value.nibbles + [i], parent.value.ref), child])
      else (key + ([i] + child.nibbles), stack + [WithKey(child, parent.value.nibbles + ([i] + child.nibbles))])
    else
      if child.BranchNode? then (key + [i], Pushed(stack, parent) + [ExtNode([i], NULL), child])
      else (key + ([i] + child.nibbles), Pushed(stack, parent) + [WithKey(child, [i] + child.nibbles)])
  }

  /** `key(k)` of a leaf or of an extension. */
  function WithKey(n: Node, key: Nibbles): Node
    requires !n.BranchNode?
  {
    if n.LeafNode? then LeafNode(key, n.value) else ExtNode(key, n.ref)
  }

  /** The processed stack follows the merged path. */
  lemma {:induction false} ProcessedFollows(h: Hash, frames: seq<Frame>, i: nibble, c: Tree, k: Nibbles,
                                            parent: Option<Node>, stack: seq<Node>)
    requires AllOk(frames) && WF(c) && !c.Nil?
    requires AllMatch(h, Pushed(stack, parent), frames) && (parent.None? ==> stack == [])
    ensures parent.Some? ==> !parent.value.LeafNode?
    ensures Follows(h, Processed(k, i, NodeOf(h, c), parent, stack).1, MergedFrames(frames, i, c),
                    MergedBottom(frames, i, c))
    ensures Processed(k, i, NodeOf(h, c), parent, stack).0 == k + ([i] + TailKey(c))
  {
    var upper, joint := Upper(frames), Joint(frames, i);
    var above := if EndsInExt(frames) then stack else Pushed(stack, parent);
    if parent.Some? {
      assert Matches(h, parent.value, frames[|frames| - 1]);
      assert Pushed(stack, parent)[..|stack|] == stack;
    }
    assert AllMatch(h, above, upper);
    if c.Branch? {
      var placeholder := if EndsInExt(frames) then parent.value.ref else NULL;
      var more := [ExtNode(joint, placeholder), NodeOf(h, c)];
      assert more[..1] == [ExtNode(joint, placeholder)];
      assert [] + [i] == [i];
      assert [i] + [] == [i];
      FollowsBelow(h, above, upper, more, [ExtFrame(joint)], c);
    } else {
      var bottom := Prepend(joint, c);
      assert [] + [i] == [i];
      Associate(if EndsInExt(frames) then frames[|frames| - 1].nibbles else [], [i], TailKey(c));
      assert NodeOf(h, bottom) == WithKey(NodeOf(h, c), joint + TailKey(c));
      FollowsBelow(h, above, upper, [NodeOf(h, bottom)], [], bottom);
    }
  }

  lemma {:induction false} ReadyMerged(h: Hash, universe: iset<Bytes>, db: DB, t: Tree, key: Nibbles, k: Nibbles,
                                       lastNode: Node, stack: seq<Node>, parent: Option<Node>, i: nibble, c: Tree)
    requires CollisionFree(h, universe)
    requires WF(t) && Found(t, key) && !t.Leaf? && Frames(t, key) != []
    requires RootStored(h, db, t) && Within(h, universe, t) && Within(h, universe, Del(t, key))
    requires Losing(h, t, key, k, lastNode, stack, parent)
    requires |Emptied(t, key)| == 16 && Count(Emptied(t, key)) == 1
    requires i == OnlyChild(Emptied(t, key)) && c == Emptied(t, key)[i]
    ensures LookupNode(db, RefOf(h, c)) == Present(NodeOf(h, c))
    ensures parent.Some? ==> !parent.value.LeafNode?
    ensures var (k', nodes) := Processed(k, i, NodeOf(h, c), parent, stack);
            var frames, bottom := MergedFrames(Above(t, key), i, c), MergedBottom(Above(t, key), i, c);
            && Ready(h, universe, db, k', nodes, [], frames, bottom)
            && Plug(frames, bottom) == Del(t, key)
  {
    var above := Above(t, key);
    var frames, bottom := MergedFrames(above, i, c), MergedBottom(above, i, c);
    LosingFits(t, key);
    LosingStored(h, universe, db, t, key);
    assert WF(c) && Stored(h, db, c) && Within(h, universe, c) && !c.Nil?;
    LookupFinds(h, universe, db, c);
    MergedFits(above, i, c);
    ProcessedFollows(h, above, i, c, k, parent, stack);
    DelAtTarget(t, key);
    DelIsWF(t, key);
    PlugIsWF(frames, bottom);
    MergedStored(h, db, above, i, c);
  }

  lemma {:induction false} MergedStored(h: Hash, db: DB, frames: seq<Frame>, i: nibble, c: Tree)
    requires SiblingsStored(h, db, frames) && !c.Nil? && Stored(h, db, c)
    ensures SiblingsStored(h, db, MergedFrames(frames, i, c))
    ensures KidsStored(h, db, MergedBottom(frames, i, c))
  {
    var upper := Upper(frames);
    assert forall j | 0 <= j < |upper| :: upper[j] == frames[j];
  }

  /** Below the root, `del` is what `Trie.Del` says; the walk to a key that is not at the root has a
      node above its end. */
  lemma {:induction false} DeeperThanRoot(t: Tree, key: Nibbles)
    requires WF(t) && Found(t, key) && Frames(t, key) != []
    ensures !t.Leaf? && DelRoot(t, key) == Del(t, key)
  {}

  /** The empty key is always found at a branch. */
  lemma {:induction false} RootBranchFound(t: Tree, key: Nibbles)
    requires WF(t) && !Found(t, key)
    ensures DelRoot(t, key) == Del(t, key)
  {}
}
