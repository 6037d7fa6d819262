/** `packages/mpt/src/mpt.ts`: a root hash, a store, and walks over stacks of nodes. Every operation
    is proved to take the stored trie to the trie that `Trie.Put` or `Trie.DelRoot` gives. */
module Mpt {
  import opened Rlp
  import opened Trie
  import opened Wrappers
  import opened MptNode
  import opened MptPath
  import opened MptStore
  import opened MptWalk
  import opened MptUpdate
  import opened MptDelete
  import TrieHistory

  class MerklePatriciaTrie {
    const hash: Hash
    const useKeyHashing: bool
    /** The byte strings this trie may hash. */
    ghost const universe: iset<Bytes>
    var root: Bytes
    var db: DB
    /** The trie that `root` stands for. */
    ghost var tree: Tree

    ghost predicate Valid()
      reads this
    {
      && CollisionFree(hash, universe)
      && DbOk(hash, universe, db)
      && WF(tree) && Within(hash, universe, tree)
      && root == RootOf(hash, tree)
      && RootStored(hash, db, tree)
    }

    /** On a store and a root that some trie has left behind (mpt.ts:117-125); with no root it is the empty trie. */
    constructor (hash: Hash, useKeyHashing: bool, db: DB, root: Option<Bytes>, ghost universe: iset<Bytes>,
                 ghost tree: Tree)
      requires CollisionFree(hash, universe) && DbOk(hash, universe, db)
      requires WF(tree) && Within(hash, universe, tree) && RootStored(hash, db, tree)
      requires if root.None? then tree == Nil else root.value == RootOf(hash, tree)
      ensures Valid() && this.tree == tree && this.db == db
      ensures this.hash == hash && this.universe == universe && this.useKeyHashing == useKeyHashing
    {
      this.hash, this.useKeyHashing, this.universe := hash, useKeyHashing, universe;
      this.db, this.tree := db, tree;
      this.root := root.UnwrapOr(hash(RLP_EMPTY_STRING));
    }

    function EMPTY_TRIE_ROOT(): Bytes {
      hash(RLP_EMPTY_STRING)
    }

    /** `appliedKey`. */
    function AppliedKey(key: Bytes): Bytes {
      if useKeyHashing then hash(key) else key
    }

    function Target(key: Bytes): Nibbles {
      BytesToNibbles(AppliedKey(key))
    }

    /** Walks follow the nibbles of the whole key, or of its hash. */
    lemma {:induction false} TargetIsKey(key: Bytes)
      ensures HexToBytes(Target(key)) == if useKeyHashing then hash(key) else key
    {
      UnpackRoundTrip(AppliedKey(key));
    }

    /** Keys that are one to the trie: with key hashing, those of one hash. */
    predicate SameKey(a: Bytes, b: Bytes) {
      if useKeyHashing then hash(a) == hash(b) else a == b
    }

    lemma {:induction false} SameTarget(a: Bytes, b: Bytes)
      ensures Target(a) == Target(b) <==> SameKey(a, b)
    {
      TargetIsKey(a);
      TargetIsKey(b);
    }

    /** What the trie holds under a key; nothing is the empty value. */
    ghost function Held(key: Bytes): Bytes
      reads this
      requires WF(tree)
    {
      Trie.Get(tree, Target(key))
    }

    lemma {:induction false} PutHolds(t: Tree, key: Bytes, value: Bytes)
      requires WF(t) && value != []
      ensures WF(Trie.Put(t, Target(key), value))
      ensures forall other :: Trie.Get(Trie.Put(t, Target(key), value), Target(other)) ==
                if SameKey(key, other) then value else Trie.Get(t, Target(other))
    {
      PutIsWF(t, Target(key), value);
      forall other ensures Trie.Get(Trie.Put(t, Target(key), value), Target(other)) ==
                             if SameKey(key, other) then value else Trie.Get(t, Target(other))
      {
        GetPut(t, Target(key), value, Target(other));
        SameTarget(key, other);
      }
    }

    lemma {:induction false} DelLeaves(t: Tree, key: Bytes)
      requires WF(t)
      ensures WF(DelRoot(t, Target(key)))
      ensures forall other :: Trie.Get(DelRoot(t, Target(key)), Target(other)) ==
                if LosesAtRoot(t, Target(key), Target(other)) then [] else Trie.Get(t, Target(other))
    {
      hide Target;
      DelIsWF(t, Target(key));
      forall other ensures Trie.Get(DelRoot(t, Target(key)), Target(other)) ==
                             if LosesAtRoot(t, Target(key), Target(other)) then [] else Trie.Get(t, Target(other))
      {
        DelReads(t, Target(key), Target(other));
      }
    }

    lemma {:induction false} DelHolds(t: Tree, key: Bytes)
      requires WF(t) && DelRootIsExact(t, Target(key))
      ensures WF(DelRoot(t, Target(key)))
      ensures forall other :: Trie.Get(DelRoot(t, Target(key)), Target(other)) ==
                if SameKey(key, other) then [] else Trie.Get(t, Target(other))
    {
      DelExactly(t, Target(key));
      forall other ensures Trie.Get(DelRoot(t, Target(key)), Target(other)) ==
                             if SameKey(key, other) then [] else Trie.Get(t, Target(other))
      {
        SameTarget(key, other);
      }
    }

    // -------------------------------------------------------------------------------------
    // Reading
    // -------------------------------------------------------------------------------------

    /** `findPath` (mpt.ts:318-449), with `throwIfMissing` off. */
    method FindPath(targetKey: Nibbles) returns (node: Option<Node>, remaining: Nibbles, stack: seq<Node>)
      requires Valid()
      ensures tree.Nil? ==> node.None? && remaining == [] && stack == []
      ensures !tree.Nil? ==> PathFound(hash, tree, targetKey, node, remaining, stack)
    {
      hide Walking, PathFound, MoveAt, EndsOn, WF, Within, KidsStored, NodeOf, Frames, Descends, FrameAt, LeftAt,
        ChildAt;
      hide LookupNode, DbOk, CollisionFree, RootStored, RootOf, RefOf, NodeOk;
      var progress: nat := 0;
      stack := [];
      RootLookup(hash, universe, db, tree);
      var next := LookupNode(db, Str(root));
      if next.Missing? {
        return None, [], [];
      }
      ghost var cur := tree;
      ghost var done: seq<Frame> := [];
      ghost var left := targetKey;
      WalkStart(hash, universe, db, tree, targetKey);
      while true
        invariant progress <= |targetKey| && left == targetKey[progress..]
        invariant Walking(hash, universe, db, tree, targetKey, left, cur, done, stack)
        invariant WF(cur) && !cur.Nil?
        invariant next == Present(NodeOf(hash, cur))
        decreases cur
      {
        var n := next.node;
        MoveIsStep(hash, universe, cur, left);
        var move := OnFound(n, targetKey, progress);
        match move {
          case Stop(found) =>
            WalkStop(hash, universe, db, tree, targetKey, left, cur, done, stack);
            stack := stack + [n];
            if found {
              return Some(n), [], stack;
            }
            return None, targetKey[progress..], stack;
          case Go(ref, used) =>
            ghost var f, child, left' := FrameAt(cur, left), ChildAt(cur, left), LeftAt(cur, left);
            WalkStep(hash, universe, db, tree, targetKey, left, cur, done, stack, f, child, left');
            Advance(targetKey, progress, cur, left);
            next := LookupNode(db, ref);
            stack := stack + [n];
            progress := progress + used;
            done, cur, left := done + [f], child, left';
        }
      }
    }

    /** The `onFound` callback of `findPath` (mpt.ts:338-411). */
    method OnFound(node: Node, targetKey: Nibbles, progress: nat) returns (move: Move)
      requires progress <= |targetKey| && NodeOk(node)
      ensures move == MoveAt(node, targetKey[progress..])
    {
      match node {
        case BranchNode(branches, _) =>
          if progress == |targetKey| {
            return Stop(true);
          }
          var branchNode := branches[targetKey[progress]];
          return if branchNode == NULL then Stop(false) else Go(branchNode, 1);
        case LeafNode(nibbles, _) =>
          if |targetKey| - progress > |nibbles| {
            return Stop(false);
          }
          var matching := KeyMatches(nibbles, targetKey, progress);
          return Stop(matching);
        case ExtNode(nibbles, ref) =>
          var matching := KeyMatches(nibbles, targetKey, progress);
          return if matching then Go(ref, |nibbles|) else Stop(false);
      }
    }

    /** The loops of `findPath` that compare a node's key nibble by nibble with the target. */
    method KeyMatches(nibbles: Nibbles, targetKey: Nibbles, start: nat) returns (matching: bool)
      requires start <= |targetKey|
      ensures matching <==> nibbles <= targetKey[start..]
    {
      var progress := start;
      for i := 0 to |nibbles|
        invariant progress == start + i <= |targetKey|
        invariant forall j | 0 <= j < i :: nibbles[j] == targetKey[start + j]
      {
        if progress >= |targetKey| || nibbles[i] != targetKey[progress] {
          assert progress < |targetKey| ==> targetKey[progress] == targetKey[start..][i];
          return false;
        }
        progress := progress + 1;
      }
      assert forall j | 0 <= j < |nibbles| :: nibbles[j] == targetKey[start..][j];
      return true;
    }

    /** `get` (mpt.ts:190-199); no value is the empty byte string. */
    method Get(key: Bytes) returns (value: Bytes)
      requires Valid()
      ensures value == Held(key)
    {
      GetAtTarget(tree, Target(key));
      var node, remaining, stack := FindPath(Target(key));
      value := [];
      if node.Some? && remaining == [] {
        match node.value {
          case LeafNode(_, v) => value := v;
          case BranchNode(_, v) => value := v;
          case ExtNode(_, _) => assert false;
        }
      }
    }

    // -------------------------------------------------------------------------------------
    // Writing
    // -------------------------------------------------------------------------------------

    /** The middle of the loop of `saveStack`: shortens the key and puts the last reference in. */
    method PutReference(node0: Node, key0: Nibbles, lastRoot: Option<Item>) returns (node: Node, key: Nibbles)
      requires FilledOk(node0, key0, lastRoot)
      ensures (node, key) == Filled(node0, key0, lastRoot)
    {
      node, key := node0, key0;
      if node.LeafNode? || node.ExtNode? {
        key := key[..|key| - |node.nibbles|];
      }
      if node.ExtNode? && lastRoot.Some? {
        node := node.(ref := lastRoot.value);
      }
      if node.BranchNode? && lastRoot.Some? {
        var branchKey := key[|key| - 1];
        key := key[..|key| - 1];
        node := node.(branches := node.branches[branchKey := lastRoot.value]);
      }
    }

    /** `saveStack` (mpt.ts:783-811): formats the nodes from the bottom up, putting each reference
        into the node above, and writes the lot. */
    method SaveStack(k: Nibbles, nodes: seq<Node>, ops: seq<BatchOp>,
                     ghost frames: seq<Frame>, ghost bottom: Tree)
      requires CollisionFree(hash, universe) && DbOk(hash, universe, db)
      requires Ready(hash, universe, db, k, nodes, ops, frames, bottom)
      modifies this
      ensures AllOk(frames) && Valid() && tree == Plug(frames, bottom)
      ensures Extends(old(db), db)
    {
      hide Pending, Ready, WF, Within, Plug, KidsStored, NodeOf, Filled, FormatNode;
      var key, stack, opStack := k, nodes, ops;
      var lastRoot: Option<Item> := None;
      ghost var n := |nodes|;
      SaveStart(hash, universe, db, k, nodes, ops, frames, bottom);
      while stack != []
        invariant db == old(db) && 0 <= n <= |nodes| && stack == nodes[..n]
        invariant Pending(hash, universe, db, opStack, frames, bottom, n, key, lastRoot, nodes)
        decreases n
      {
        var node := stack[|stack| - 1];
        stack := stack[..|stack| - 1];
        var topLevel := stack == [];
        SaveRound(hash, universe, db, opStack, frames, bottom, n, key, lastRoot, nodes, topLevel);
        node, key := PutReference(node, key, lastRoot);
        var formatted := FormatNode(hash, node, topLevel);
        lastRoot, opStack := Some(formatted.0), opStack + formatted.1;
        n := n - 1;
      }
      SaveDone(hash, universe, db, opStack, frames, bottom, key, lastRoot, nodes);
      root := lastRoot.value.data;
      db := Batch(db, opStack);
      tree := Plug(frames, bottom);
    }

    /** `_createInitialNode` (mpt.ts:498-507). */
    method CreateInitialNode(key: Nibbles, value: Bytes)
      requires Valid() && tree.Nil? && value != []
      requires Within(hash, universe, Leaf(key, value))
      modifies this
      ensures Valid() && tree == Leaf(key, value) && Extends(old(db), db)
    {
      var newNode := LeafNode(key, value);
      var encoded := Serialize(newNode);
      root := hash(encoded);
      assert NodeOf(hash, Leaf(key, value)) == newNode;
      Distinct(hash, universe, encoded, encoded);
      NotEmptyString(newNode);
      assert [PutOp(root, encoded)][..0] == [];
      BatchExtends(hash, universe, db, [PutOp(root, encoded)]);
      db := Batch(db, [PutOp(root, encoded)]);
      tree := Leaf(key, value);
    }

    /** Is the last node the leaf of the key itself? (mpt.ts:556-577) */
    method MatchesLeaf(lastNode: Node, key: Nibbles, keyRemainder: Nibbles, stack: seq<Node>, ghost frames: seq<Frame>)
      returns (matchLeaf: bool)
      requires AllMatch(hash, stack, frames) && KeyOf(frames) <= key
      ensures matchLeaf <==> lastNode.LeafNode? && keyRemainder == [] && lastNode.nibbles <= key[|KeyOf(frames)|..]
    {
      matchLeaf := false;
      if lastNode.LeafNode? {
        var l := 0;
        assert frames[..0] == [];
        for i := 0 to |stack|
          invariant l == |KeyOf(frames[..i])|
        {
          var n := stack[i];
          assert Matches(hash, n, frames[i]);
          KeyOfSnoc(frames, i + 1);
          l := l + if n.BranchNode? then 1 else |n.nibbles|;
        }
        assert frames[..|stack|] == frames;
        if keyRemainder == [] && MatchingNibbleLength(lastNode.nibbles, key[l..]) == |lastNode.nibbles| {
          matchLeaf := true;
        }
      }
    }

    /** `_updateNode` (mpt.ts:540-641). */
    method UpdateNode(key: Nibbles, value: Bytes, remaining: Nibbles, nodes: seq<Node>)
      requires Valid() && !tree.Nil? && value != []
      requires Follows(hash, nodes, Frames(tree, key), MptPath.Target(tree, key))
      requires remaining == if Found(tree, key) then [] else Rest(tree, key)
      requires Within(hash, universe, Trie.Put(tree, key, value))
      modifies this
      ensures Valid() && tree == Trie.Put(old(tree), key, value) && Extends(old(db), db)
    {
      hide Frames, Rest, MptPath.Target, KeyOf, Plug, Trie.Put, Within, RootStored, DbOk, CollisionFree, Ready,
        AllMatch, Extends, WF;
      ghost var frames, target, rest := Frames(tree, key), MptPath.Target(tree, key), Rest(tree, key);
      PathFits(tree, key);
      assert key[|KeyOf(frames)|..] == rest;
      var lastNode, stack := nodes[|nodes| - 1], nodes[..|nodes| - 1];
      assert stack == nodes[..|frames|];
      var matchLeaf := MatchesLeaf(lastNode, key, remaining, stack, frames);
      if matchLeaf {
        assert target.key == rest;
        ReadyLeaf(hash, universe, db, tree, key, value, stack);
        stack := stack + [LeafNode(lastNode.nibbles, value)];
        SaveStack(key, stack, [], frames + [], Leaf(rest, value));
      } else if lastNode.BranchNode? {
        if remaining != [] {
          ReadyBranchSlot(hash, universe, db, tree, key, value, stack);
          stack := stack + [lastNode, LeafNode(remaining[1..], value)];
          SaveStack(key, stack, [], frames + [BranchFrame(target.children, target.value, rest[0])],
                    Leaf(rest[1..], value));
        } else {
          ReadyBranchValue(hash, universe, db, tree, key, value, stack);
          stack := stack + [BranchNode(lastNode.branches, value)];
          SaveStack(key, stack, [], frames + [], Branch(target.children, value));
        }
      } else {
        SplitNode(key, value, remaining, lastNode, stack);
      }
    }

    /** The last part of `_updateNode` (mpt.ts:592-638): the key leaves the key of a leaf or of an
        extension, and a new branch is made there. */
    method SplitNode(key: Nibbles, value: Bytes, remaining: Nibbles, lastNode: Node, nodes: seq<Node>)
      requires Valid() && !tree.Nil? && value != [] && !Found(tree, key)
      requires AllMatch(hash, nodes, Frames(tree, key))
      requires lastNode == NodeOf(hash, MptPath.Target(tree, key)) && !lastNode.BranchNode?
      requires remaining == Rest(tree, key)
      requires Within(hash, universe, Trie.Put(tree, key, value))
      modifies this
      ensures Valid() && tree == Trie.Put(old(tree), key, value) && Extends(old(db), db)
    {
      ghost var target := MptPath.Target(tree, key);
      ghost var frames := Frames(tree, key);
      var lastKey, keyRemainder := lastNode.nibbles, remaining;
      var matchingLength := MatchingNibbleLength(lastKey, keyRemainder);
      ghost var m, placeholder := matchingLength, Str(value);
      PathSiblings(hash, universe, db, [], tree, key);
      PathFits(tree, key);
      PutAtTarget(tree, key, value);
      PlugWithin(hash, universe, frames, Trie.Put(target, remaining, value));
      if target.Ext? {
        LeavesInside(target.key, remaining);
      }
      ForkKeeps(hash, universe, db, target, remaining, value);
      var newBranch, toSave := AttachOld(lastNode, matchingLength, target);
      ghost var cs, old' := ForkRow(target, m), ForkValue(target, m);
      var stack := PushFork(nodes, newBranch, lastKey, keyRemainder, matchingLength, value, cs, old');
      ReadyFork(hash, universe, db, tree, key, value, nodes, toSave, m, cs, old', placeholder);
      SaveStack(key, stack, toSave, frames + (ForkTop(remaining, m) + ForkLow(remaining, m, cs, old')),
                ForkBottom(remaining, m, cs, value));
    }

    /** Pushes the nodes of a fork (mpt.ts:598-607, 630-637). */
    method PushFork(nodes: seq<Node>, newBranch: Node, lastKey: Nibbles, remaining: Nibbles, matchingLength: nat,
                    value: Bytes,
                    ghost cs: seq<Tree>, ghost old': Bytes) returns (stack: seq<Node>)
      requires matchingLength == MatchingNibbleLength(lastKey, remaining)
      requires |cs| == 16 && newBranch == NodeOf(hash, Branch(cs, old'))
      ensures stack == nodes + ForkNodes(hash, remaining, matchingLength, cs, old', value, Str(value))
    {
      var keyRemainder := remaining;
      stack := nodes;
      if matchingLength != 0 {
        stack := stack + [ExtNode(lastKey[..matchingLength], Str(value))];
        keyRemainder := keyRemainder[matchingLength..];
      }
      if keyRemainder != [] {
        stack := stack + [newBranch, LeafNode(keyRemainder[1..], value)];
        assert keyRemainder[1..] == remaining[matchingLength + 1..];
      } else {
        stack := stack + [BranchNode(newBranch.branches, value)];
        assert newBranch.branches == NodeOf(hash, Branch(cs, value)).branches;
      }
    }

    /** Puts what the last node held into a new branch (mpt.ts:596-628). */
    method AttachOld(lastNode: Node, matchingLength: nat, ghost target: Tree)
      returns (newBranch: Node, toSave: seq<BatchOp>)
      requires WF(target) && (target.Leaf? || target.Ext?) && lastNode == NodeOf(hash, target)
      requires matchingLength <= |target.key| && (target.Ext? ==> matchingLength < |target.key|)
      ensures newBranch == NodeOf(hash, Branch(ForkRow(target, matchingLength), ForkValue(target, matchingLength)))
      ensures toSave == ForkOps(hash, target, matchingLength)
    {
      var lastKey := lastNode.nibbles[matchingLength..];
      newBranch, toSave := BranchNode(Nulls(16), []), [];
      if lastKey != [] {
        var branchKey := lastKey[0];
        lastKey := lastKey[1..];
        var ref;
        ref, toSave := ShrinkOrAttach(lastNode, lastKey);
        newBranch := BranchNode(newBranch.branches[branchKey := ref], []);
        ShrunkIsKept(hash, target, matchingLength);
        FreshBranch(hash, branchKey, Kept(target, matchingLength), []);
      } else {
        newBranch := BranchNode(newBranch.branches, lastNode.value);
        FreshBranch(hash, 0, Nil, lastNode.value);
      }
    }

    /** Shrinks a leaf or an extension, or attaches what the extension pointed to (mpt.ts:612-625). */
    method ShrinkOrAttach(lastNode: Node, lastKey: Nibbles) returns (ref: Item, toSave: seq<BatchOp>)
      requires !lastNode.BranchNode?
      ensures (ref, toSave) == ShrunkRef(hash, lastNode, lastKey)
    {
      if lastKey != [] || lastNode.LeafNode? {
        var shrunk := if lastNode.LeafNode? then LeafNode(lastKey, lastNode.value) else ExtNode(lastKey, lastNode.ref);
        var formatted := FormatNode(hash, shrunk, false);
        return formatted.0, formatted.1;
      }
      return lastNode.ref, [];
    }

    // -------------------------------------------------------------------------------------
    // Deleting
    // -------------------------------------------------------------------------------------

    /** `getChildren` of a branch (node/branch.ts:50-59). */
    method GetChildren(branches: seq<Item>) returns (children: seq<(nat, Item)>)
      ensures children == ChildrenOf(branches)
    {
      children := [];
      for i := 0 to |branches|
        invariant children == ChildrenOf(branches[..i])
      {
        assert branches[..i + 1][..i] == branches[..i];
        if branches[i] != NULL {
          children := children + [(i, branches[i])];
        }
      }
      assert branches[..|branches|] == branches;
    }

    /** `processBranchMPTNode` (mpt.ts:648-704). */
    method ProcessBranch(key0: Nibbles, branchKey: nibble, branchNode: Node, parentNode: Option<Node>,
                         stack0: seq<Node>)
      returns (key: Nibbles, stack: seq<Node>)
      requires parentNode.Some? ==> !parentNode.value.LeafNode?
      ensures (key, stack) == Processed(key0, branchKey, branchNode, parentNode, stack0)
    {
      key, stack := key0, stack0;
      if parentNode.None? || parentNode.value.BranchNode? {
        if parentNode.Some? {
          stack := stack + [parentNode.value];
        }
        if branchNode.BranchNode? {
          stack := stack + [ExtNode([branchKey], NULL), branchNode];
          key := key + [branchKey];
        } else {
          var branchNodeKey := [branchKey] + branchNode.nibbles;
          key := key + branchNodeKey;
          stack := stack + [WithKey(branchNode, branchNodeKey)];
        }
      } else {
        var parentKey := parentNode.value.nibbles;
        if branchNode.BranchNode? {
          parentKey := parentKey + [branchKey];
          key := key + [branchKey];
          stack := stack + [WithKey(parentNode.value, parentKey), branchNode];
        } else {
          var branchNodeKey := [branchKey] + branchNode.nibbles;
          key := key + branchNodeKey;
          stack := stack + [WithKey(branchNode, parentKey + branchNodeKey)];
        }
      }
    }

    /** The nodes to the end of the path of a key that is found below the top. */
    ghost predicate PathTo(key: Nibbles, last: Node, above: seq<Node>)
      reads this
    {
      && WF(tree) && Found(tree, key) && !tree.Leaf? && above != [] && Frames(tree, key) != []
      && AllMatch(hash, above, Frames(tree, key)) && last == NodeOf(hash, MptPath.Target(tree, key))
    }

    /** The node at the end of the path is the leaf of the trie there. */
    lemma {:induction false} EndsAtLeaf(key: Nibbles, last: Node)
      requires WF(tree) && Found(tree, key) && last == NodeOf(hash, MptPath.Target(tree, key)) && !last.BranchNode?
      ensures var target := MptPath.Target(tree, key); target.Leaf? && |last.nibbles| == |target.key|
    {
      hide WF, MptPath.Target, MptPath.Rest;
    }

    /** The path ends at a leaf, and the node above it is the branch that loses it. */
    lemma {:induction false} TakesLeaf(key: Nibbles, last: Node, above: seq<Node>)
      requires PathTo(key, last, above) && !last.BranchNode?
      ensures WF(tree) && Found(tree, key) && !tree.Leaf?
      ensures |last.nibbles| < |key|
      ensures var k, parent, rest := key[..|key| - |last.nibbles|], above[|above| - 1], above[..|above| - 1];
              && parent.BranchNode? && |parent.branches| == 16
              && var lastNode := BranchNode(parent.branches[k[|k| - 1] := NULL], parent.value);
              && (rest == [] ==> Losing(hash, tree, key, k[..|k| - 1], lastNode, [], None))
              && (rest != [] ==> Losing(hash, tree, key, k[..|k| - 1], lastNode, rest[..|rest| - 1],
                                        Some(rest[|rest| - 1])))
    {
      hide WF, Found, Losing, AllMatch, KeyOf, Above, AllOk, NodeOf, Frames, MptPath.Target;
      EndsAtLeaf(key, last);
      KeyToLeaf(tree, key);
      var rest, parent := above[..|above| - 1], above[|above| - 1];
      assert above == rest + [parent];
      LosesLeaf(hash, tree, key, rest, parent, Frames(tree, key)[|Frames(tree, key)| - 1].index);
    }

    /** The path ends at a branch. */
    lemma {:induction false} TakesValue(key: Nibbles, last: Node, above: seq<Node>)
      requires PathTo(key, last, above) && last.BranchNode?
      ensures WF(tree) && Found(tree, key) && !tree.Leaf?
      ensures Losing(hash, tree, key, key, last, above[..|above| - 1], Some(above[|above| - 1]))
    {
      hide WF, Losing, AllMatch, KeyOf, Above, AllOk;
      LosesValue(hash, tree, key, above);
    }

    /** The middle of `_deleteNode` (mpt.ts:719-734): takes the occupant from its branch. */
    method TakeOccupant(key: Nibbles, last: Node, above: seq<Node>)
      returns (k: Nibbles, lastNode: Node, stack: seq<Node>, parentNode: Option<Node>)
      requires PathTo(key, last, above)
      ensures WF(tree) && Found(tree, key) && !tree.Leaf? && Losing(hash, tree, key, k, lastNode, stack, parentNode)
    {
      hide WF, Found, Losing;
      assert above != [];
      hide PathTo;
      k, lastNode := key, last;
      parentNode, stack := Some(above[|above| - 1]), above[..|above| - 1];
      if lastNode.BranchNode? {
        TakesValue(key, last, above);
        lastNode := WithValue(lastNode, None);
      } else {
        TakesLeaf(key, last, above);
        k := k[..|k| - |lastNode.nibbles|];
        var branchKey := k[|k| - 1];
        k := k[..|k| - 1];
        lastNode := BranchNode(parentNode.value.branches[branchKey := NULL], parentNode.value.value);
        if stack == [] {
          parentNode := None;
        } else {
          parentNode, stack := Some(stack[|stack| - 1]), stack[..|stack| - 1];
        }
      }
    }

    /** `_deleteNode` (mpt.ts:647-774). */
    method DeleteNode(key: Nibbles, nodes: seq<Node>)
      requires Valid() && !tree.Nil? && Found(tree, key)
      requires Follows(hash, nodes, Frames(tree, key), MptPath.Target(tree, key))
      requires Within(hash, universe, DelRoot(tree, key))
      modifies this
      ensures Valid() && tree == DelRoot(old(tree), key) && Extends(old(db), db)
    {
      var lastNode, above := nodes[|nodes| - 1], nodes[..|nodes| - 1];
      if above == [] {
        root := EMPTY_TRIE_ROOT();
        tree := Nil;
        return;
      }
      DeeperThanRoot(tree, key);
      assert above == nodes[..|Frames(tree, key)|];
      var k, stack, parentNode;
      k, lastNode, stack, parentNode := TakeOccupant(key, lastNode, above);
      Rejoin(key, k, lastNode, stack, parentNode);
    }

    /** The last part of `_deleteNode` (mpt.ts:736-773): a branch with one child left is merged away. */
    method Rejoin(ghost key: Nibbles, k0: Nibbles, lastNode: Node, stack0: seq<Node>, parentNode: Option<Node>)
      requires Valid() && !tree.Leaf? && Found(tree, key) && Frames(tree, key) != []
      requires Losing(hash, tree, key, k0, lastNode, stack0, parentNode)
      requires Within(hash, universe, Trie.Del(tree, key))
      modifies this
      ensures Valid() && tree == Trie.Del(old(tree), key) && Extends(old(db), db)
    {
      hide WF, Within, Ready, Plug, AllMatch, KidsStored, Processed, Found, Frames, Count, Emptied, LosingBranch, Above;
      var k, stack := k0, stack0;
      ghost var cs, v := Emptied(tree, key), LosingBranch(tree, key).value;
      LosingStored(hash, universe, db, tree, key);
      ChildrenCounted(hash, universe, cs, lastNode.branches);
      var branchNodes := GetChildren(lastNode.branches);
      if |branchNodes| == 1 {
        ghost var i := OnlyChild(cs);
        var branchKey, branchNode := branchNodes[0].0, branchNodes[0].1;
        ReadyMerged(hash, universe, db, tree, key, k, lastNode, stack, parentNode, i, cs[i]);
        var foundNode := LookupNode(db, branchNode);
        k, stack := ProcessBranch(k, branchKey, foundNode.node, parentNode, stack);
        SaveStack(k, stack, [], MergedFrames(Above(tree, key), i, cs[i]), MergedBottom(Above(tree, key), i, cs[i]));
      } else {
        ReadyPlain(hash, universe, db, tree, key, k, lastNode, stack, parentNode);
        stack := Pushed(stack, parentNode) + [lastNode];
        SaveStack(k, stack, [], Above(tree, key), Branch(cs, v));
      }
    }

    // -------------------------------------------------------------------------------------
    // The operations
    // -------------------------------------------------------------------------------------

    /** `put` (mpt.ts:208-267); an empty value deletes. */
    method Put(key: Bytes, value: Bytes)
      requires Valid() && Within(hash, universe, TrieHistory.Apply(tree, TrieHistory.PutOp(Target(key), value)))
      modifies this
      ensures Valid() && tree == TrieHistory.Apply(old(tree), TrieHistory.PutOp(Target(key), value))
      ensures Extends(old(db), db)
      ensures value != [] || DelRootIsExact(old(tree), Target(key)) ==>
                forall other :: Held(other) == if SameKey(key, other) then value else old(Held(other))
    {
      hide SameKey, Target;
      if value == [] {
        Del(key);
        return;
      }
      PutHolds(tree, key, value);
      RootLookup(hash, universe, db, tree);
      if root == EMPTY_TRIE_ROOT() {
        CreateInitialNode(Target(key), value);
      } else {
        var _, remaining, stack := FindPath(Target(key));
        UpdateNode(Target(key), value, remaining, stack);
      }
    }

    /** `del` (mpt.ts:275-310). */
    method Del(key: Bytes)
      requires Valid() && Within(hash, universe, DelRoot(tree, Target(key)))
      modifies this
      ensures Valid() && tree == DelRoot(old(tree), Target(key)) && Extends(old(db), db)
      ensures forall other :: Held(other) ==
                if LosesAtRoot(old(tree), Target(key), Target(other)) then [] else old(Held(other))
      ensures DelRootIsExact(old(tree), Target(key)) ==>
                forall other :: Held(other) == if SameKey(key, other) then [] else old(Held(other))
    {
      hide SameKey, Target, Loses;
      DelLeaves(tree, key);
      if DelRootIsExact(tree, Target(key)) {
        DelHolds(tree, key);
      }
      var node, _, stack := FindPath(Target(key));
      if node.Some? {
        DeleteNode(Target(key), stack);
      } else if !tree.Nil? {
        DelNotFound(tree, Target(key));
        RootBranchFound(tree, Target(key));
      }
    }
  }
}
