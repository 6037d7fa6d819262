/** The invariants of the walk down (`findPath`) and of the walk back up (`saveStack`). */
module MptWalk {
  import opened Rlp
  import opened Trie
  import opened Wrappers
  import opened MptNode
  import opened MptPath
  import opened MptStore

  /** A stack of nodes follows a walk: frames above, the target at the end. */
  ghost predicate Follows(h: Hash, stack: seq<Node>, frames: seq<Frame>, bottom: Tree) {
    && !bottom.Nil?
    && |stack| == |frames| + 1
    && AllMatch(h, stack[..|frames|], frames)
    && stack[|frames|] == NodeOf(h, bottom)
  }

  /** The nibbles a node at the end of the path adds to it. */
  function TailKey(t: Tree): Nibbles {
    match t
    case Leaf(key, _) => key
    case Ext(key, _) => key
    case _ => []
  }

  // ---------------------------------------------------------------------------------------
  // Invariants of the walk down and of the walk up
  // ---------------------------------------------------------------------------------------

  /** A walk for `key` through `t` has passed `done`, and stands before `cur` with `left` to go. */
  ghost predicate Walking(h: Hash, universe: iset<Bytes>, db: DB, t: Tree, key: Nibbles,
                          left: Nibbles, cur: Tree, done: seq<Frame>, stack: seq<Node>)
  {
    && WF(t) && WF(cur) && !cur.Nil?
    && Within(h, universe, cur) && KidsStored(h, db, cur)
    && Frames(t, key) == done + Frames(cur, left)
    && Target(t, key) == Target(cur, left)
    && Rest(t, key) == Rest(cur, left)
    && AllMatch(h, stack, done)
  }

  lemma {:induction false} WalkStart(h: Hash, universe: iset<Bytes>, db: DB, t: Tree, key: Nibbles)
    requires CollisionFree(h, universe) && DbOk(h, universe, db) && RootStored(h, db, t)
    requires WF(t) && Within(h, universe, t) && !t.Nil?
    ensures Walking(h, universe, db, t, key, key, t, [], [])
  {
    assert [] + Frames(t, key) == Frames(t, key);
  }

  lemma {:induction false} Reassociate<T>(a: seq<T>, x: T, c: seq<T>)
    ensures a + ([x] + c) == (a + [x]) + c
  {}

  lemma {:induction false} DropBoth(key: Nibbles, progress: nat, k: Nibbles, rest: Nibbles)
    requires progress <= |key| && key[progress..] == k + rest
    ensures progress + |k| <= |key| && rest == key[progress + |k|..]
  {
    assert rest == key[progress..][|k|..];
  }

  lemma {:induction false} Advance(key: Nibbles, progress: nat, cur: Tree, left: Nibbles)
    requires progress <= |key| && left == key[progress..] && WF(cur) && Descends(cur, left)
    ensures var next := progress + |FrameAt(cur, left).Key()|;
            next <= |key| && LeftAt(cur, left) == key[next..]
  {
    StepFits(cur, left);
    DropBoth(key, progress, FrameAt(cur, left).Key(), LeftAt(cur, left));
  }

  /** Going down one node, seen from the store: the reference to the child resolves. */
  lemma {:induction false} StepStore(h: Hash, universe: iset<Bytes>, db: DB, f: Frame, child: Tree)
    requires CollisionFree(h, universe) && f.Ok() && WF(child) && !child.Nil?
    requires Within(h, universe, Fill(f, child)) && KidsStored(h, db, Fill(f, child))
    ensures Within(h, universe, child) && KidsStored(h, db, child)
    ensures LookupNode(db, RefOf(h, child)) == Present(NodeOf(h, child))
    ensures Matches(h, NodeOf(h, Fill(f, child)), f)
  {
    FillMatches(h, f, child);
    FillStored(h, db, f, child);
    FillWithin(h, universe, f, child);
    LookupFinds(h, universe, db, child);
  }

  lemma {:induction false} WalkStep(h: Hash, universe: iset<Bytes>, db: DB, t: Tree, key: Nibbles, left: Nibbles,
                                    cur: Tree, done: seq<Frame>, stack: seq<Node>, f: Frame, child: Tree,
                                      left': Nibbles)
    requires CollisionFree(h, universe)
    requires Walking(h, universe, db, t, key, left, cur, done, stack)
    requires Descends(cur, left)
    requires f == FrameAt(cur, left) && child == ChildAt(cur, left) && left' == LeftAt(cur, left)
    ensures Walking(h, universe, db, t, key, left', child, done + [f], stack + [NodeOf(h, cur)])
    ensures LookupNode(db, RefOf(h, child)) == Present(NodeOf(h, child))
  {
    Reassociate(done, f, Frames(child, left'));
    StepFits(cur, left);
    StepStore(h, universe, db, f, child);
  }

  /** What `findPath` has to return for `key`. */
  ghost predicate PathFound(h: Hash, t: Tree, key: Nibbles, node: Option<Node>, remaining: Nibbles, stack: seq<Node>)
    requires WF(t) && !t.Nil?
  {
    && Follows(h, stack, Frames(t, key), Target(t, key))
    && node == (if Found(t, key) then Some(NodeOf(h, Target(t, key))) else None)
    && remaining == if Found(t, key) then [] else Rest(t, key)
  }

  /** Does this node end the walk on the key? */
  predicate EndsOn(node: Node, left: Nibbles) {
    match node
    case LeafNode(nibbles, _) => nibbles == left
    case ExtNode(_, _) => false
    case BranchNode(_, _) => left == []
  }

  /** What the `onFound` callback decides at a node with `left` still to go: the walk is over, with
      or without a match, or goes on at a reference after using up some nibbles. */
  datatype Move = Stop(found: bool) | Go(ref: Item, used: nat)

  function MoveAt(node: Node, left: Nibbles): Move
    requires NodeOk(node)
  {
    match node
    case LeafNode(_, _) => Stop(EndsOn(node, left))
    case ExtNode(nibbles, ref) => if nibbles <= left then Go(ref, |nibbles|) else Stop(false)
    case BranchNode(branches, _) =>
      if left == [] then Stop(true)
      else if branches[left[0]] == NULL then Stop(false)
      else Go(branches[left[0]], 1)
  }

  lemma {:induction false} MoveIsStep(h: Hash, universe: iset<Bytes>, t: Tree, left: Nibbles)
    requires CollisionFree(h, universe) && WF(t) && !t.Nil?
    ensures NodeOk(NodeOf(h, t))
    ensures MoveAt(NodeOf(h, t), left) ==
            if Descends(t, left) then Go(RefOf(h, ChildAt(t, left)), |FrameAt(t, left).Key()|)
            else Stop(EndsOn(NodeOf(h, t), left))
  {
    if t.Branch? && left != [] {
      RefShape(h, universe, t.children[left[0]]);
    }
  }

  /** Where the walk stops. */
  lemma {:induction false} WalkStop(h: Hash, universe: iset<Bytes>, db: DB, t: Tree, key: Nibbles,
                                    left: Nibbles, cur: Tree, done: seq<Frame>, stack: seq<Node>)
    requires Walking(h, universe, db, t, key, left, cur, done, stack)
    requires !Descends(cur, left)
    ensures var node := NodeOf(h, cur);
            !t.Nil? && if EndsOn(node, left) then PathFound(h, t, key, Some(node), [], stack + [node])
            else PathFound(h, t, key, None, left, stack + [node])
  {
    assert done + [] == done;
    assert (stack + [NodeOf(h, cur)])[..|done|] == stack;
  }

  /** A stack, its key and its queued operations are ready to be saved as `Plug(frames, bottom)`. */
  ghost predicate Ready(h: Hash, universe: iset<Bytes>, db: DB, key: Nibbles, stack: seq<Node>, ops: seq<BatchOp>,
                        frames: seq<Frame>, bottom: Tree)
  {
    && OpsOk(h, universe, ops)
    && AllOk(frames) && Follows(h, stack, frames, bottom)
    && key == KeyOf(frames) + TailKey(bottom)
    && KidsStored(h, Batch(db, ops), bottom) && SiblingsStored(h, Batch(db, ops), frames)
    && Within(h, universe, Plug(frames, bottom)) && WF(Plug(frames, bottom)) && WF(bottom)
  }

  /** `saveStack` has formatted everything from `frames[n]` down. */
  ghost predicate Saving(h: Hash, universe: iset<Bytes>, db: DB, ops: seq<BatchOp>, frames: seq<Frame>,
                         bottom: Tree, n: nat, key: Nibbles, lastRoot: Item)
  {
    && n <= |frames| && AllOk(frames)
    && OpsOk(h, universe, ops) && SiblingsStored(h, Batch(db, ops), frames)
    && var cur := Plug(frames[n..], bottom);
      && !cur.Nil? && Within(h, universe, cur)
      && key == KeyOf(frames[..n])
      && Stored(h, Batch(db, ops), cur)
      && (n > 0 ==> lastRoot == RefOf(h, cur))
      && (n == 0 ==> lastRoot == Str(RootOf(h, cur)) && RootStored(h, Batch(db, ops), cur))
  }

  /** Formatting the subtree below `frames[n]`, whose own children are stored. */
  lemma {:induction false} SaveFormatted(h: Hash, universe: iset<Bytes>, db: DB, ops: seq<BatchOp>,
                                         frames: seq<Frame>, bottom: Tree, n: nat)
    requires CollisionFree(h, universe) && DbOk(h, universe, db) && OpsOk(h, universe, ops)
    requires AllOk(frames) && n <= |frames| && SiblingsStored(h, Batch(db, ops), frames)
    requires var cur := Plug(frames[n..], bottom);
             !cur.Nil? && Within(h, universe, cur) && KidsStored(h, Batch(db, ops), cur)
    ensures var (ref, more) := FormatNode(h, NodeOf(h, Plug(frames[n..], bottom)), n == 0);
            Saving(h, universe, db, ops + more, frames, bottom, n, KeyOf(frames[..n]), ref)
  {
    var cur := Plug(frames[n..], bottom);
    assert Enc(h, cur) in universe;
    FormatStores(h, universe, db, ops, cur, n == 0);
    var (ref, more) := FormatNode(h, NodeOf(h, cur), n == 0);
    SiblingsExtend(h, Batch(db, ops), Batch(db, ops + more), frames);
  }

  /** What one round of `saveStack` does to a node and to the key before the node is formatted. */
  function Filled(node: Node, key: Nibbles, lastRoot: Option<Item>): (r: (Node, Nibbles))
    requires FilledOk(node, key, lastRoot)
  {
    match node
    case LeafNode(nibbles, _) => (node, key[..|key| - |nibbles|])
    case ExtNode(nibbles, _) =>
      (if lastRoot.Some? then SetHole(node, 0, lastRoot.value) else node, key[..|key| - |nibbles|])
    case BranchNode(_, _) =>
      if lastRoot.Some? then (SetHole(node, key[|key| - 1], lastRoot.value), key[..|key| - 1]) else (node, key)
  }

  /** The key is long enough, and a branch has its slots. */
  predicate FilledOk(node: Node, key: Nibbles, lastRoot: Option<Item>) {
    && NodeOk(node)
    && (!node.BranchNode? ==> |node.nibbles| <= |key|)
    && (node.BranchNode? && lastRoot.Some? ==> key != [])
  }

  /** The first round, at the end of the path. */
  lemma {:induction false} SaveBottom(h: Hash, frames: seq<Frame>, bottom: Tree)
    requires AllOk(frames) && !bottom.Nil? && (bottom.Branch? ==> |bottom.children| == 16)
    ensures var (node, key) := (NodeOf(h, bottom), KeyOf(frames) + TailKey(bottom));
            && FilledOk(node, key, None)
            && Filled(node, key, None) == (NodeOf(h, Plug(frames[|frames|..], bottom)), KeyOf(frames[..|frames|]))
    ensures Plug(frames[|frames|..], bottom) == bottom
  {
    assert frames[..|frames|] == frames && frames[|frames|..] == [];
    var key := KeyOf(frames) + TailKey(bottom);
    assert key[..|key| - |TailKey(bottom)|] == KeyOf(frames);
    assert bottom.Branch? ==> key == KeyOf(frames);
  }

  lemma {:induction false} KeyOfSnoc(frames: seq<Frame>, n: nat)
    requires AllOk(frames) && 0 < n <= |frames|
    ensures KeyOf(frames[..n]) == KeyOf(frames[..n - 1]) + frames[n - 1].Key()
  {
    SplitLast(frames[..n], Nil);
    assert frames[..n][..n - 1] == frames[..n - 1];
  }

  lemma {:induction false} PlugAt(frames: seq<Frame>, bottom: Tree, n: nat)
    requires AllOk(frames) && 0 < n <= |frames|
    ensures Plug(frames[n - 1..], bottom) == Fill(frames[n - 1], Plug(frames[n..], bottom))
    ensures Plug(frames, bottom) == Plug(frames[..n - 1], Plug(frames[n - 1..], bottom))
  {
    assert frames[n - 1..][1..] == frames[n..];
    assert frames == frames[..n - 1] + frames[n - 1..];
    PlugSplit(frames[..n - 1], frames[n - 1..], bottom);
  }

  /** Putting the last reference into the node of `frames[n - 1]`. */
  lemma {:induction false} SaveFilled(h: Hash, universe: iset<Bytes>, db: DB, ops: seq<BatchOp>, frames: seq<Frame>,
                                      bottom: Tree, n: nat, key: Nibbles, lastRoot: Item, node: Node)
    requires Saving(h, universe, db, ops, frames, bottom, n, key, lastRoot) && n > 0
    requires Within(h, universe, Plug(frames, bottom)) && Matches(h, node, frames[n - 1])
    ensures FilledOk(node, key, Some(lastRoot))
    ensures Filled(node, key, Some(lastRoot)) == (NodeOf(h, Plug(frames[n - 1..], bottom)), KeyOf(frames[..n - 1]))
    ensures var cur := Plug(frames[n - 1..], bottom);
            !cur.Nil? && Within(h, universe, cur) && KidsStored(h, Batch(db, ops), cur)
  {
    var f := frames[n - 1];
    var cur := Plug(frames[n..], bottom);
    KeyOfSnoc(frames, n);
    PlugAt(frames, bottom, n);
    FilledByFrame(h, node, f, cur, KeyOf(frames[..n - 1]), lastRoot);
    assert SiblingStored(h, Batch(db, ops), f);
    FillStored(h, Batch(db, ops), f, cur);
    PlugWithin(h, universe, frames[..n - 1], Plug(frames[n - 1..], bottom));
  }

  lemma {:induction false} FilledByFrame(h: Hash, node: Node, f: Frame, t: Tree, key: Nibbles, ref: Item)
    requires f.Ok() && Matches(h, node, f) && ref == RefOf(h, t)
    ensures FilledOk(node, key + f.Key(), Some(ref))
    ensures Filled(node, key + f.Key(), Some(ref)) == (NodeOf(h, Fill(f, t)), key)
  {
    FilledNode(h, node, f, t);
    assert (key + f.Key())[..|key + f.Key()| - |f.Key()|] == key;
  }

  /** Before a round of `saveStack` that takes the node of `frames[n - 1]`, or the one at the end. */
  ghost predicate Pending(h: Hash, universe: iset<Bytes>, db: DB, ops: seq<BatchOp>, frames: seq<Frame>, bottom: Tree,
                          n: nat, key: Nibbles, lastRoot: Option<Item>, nodes: seq<Node>)
  {
    && n <= |frames| + 1 && |nodes| == |frames| + 1 && AllMatch(h, nodes[..|frames|], frames)
    && AllOk(frames) && Within(h, universe, Plug(frames, bottom)) && WF(Plug(frames, bottom))
    && if n == |frames| + 1 then lastRoot == None && Ready(h, universe, db, key, nodes, ops, frames, bottom)
       else lastRoot.Some? && Saving(h, universe, db, ops, frames, bottom, n, key, lastRoot.value)
  }

  lemma {:induction false} SaveStart(h: Hash, universe: iset<Bytes>, db: DB, key: Nibbles, nodes: seq<Node>,
                                     ops: seq<BatchOp>,
                                     frames: seq<Frame>, bottom: Tree)
    requires Ready(h, universe, db, key, nodes, ops, frames, bottom)
    ensures Pending(h, universe, db, ops, frames, bottom, |nodes|, key, None, nodes)
    ensures AllOk(frames)
  {}

  /** A round of `saveStack`. */
  lemma {:induction false} SaveRound(h: Hash, universe: iset<Bytes>, db: DB, ops: seq<BatchOp>, frames: seq<Frame>,
                                     bottom: Tree,
                                     n: nat, key: Nibbles, lastRoot: Option<Item>, nodes: seq<Node>, topLevel: bool)
    requires CollisionFree(h, universe) && DbOk(h, universe, db)
    requires Pending(h, universe, db, ops, frames, bottom, n, key, lastRoot, nodes) && n > 0
    requires topLevel <==> n == 1
    ensures FilledOk(nodes[n - 1], key, lastRoot)
    ensures var filled := Filled(nodes[n - 1], key, lastRoot);
            var formatted := FormatNode(h, filled.0, topLevel);
            Pending(h, universe, db, ops + formatted.1, frames, bottom, n - 1, filled.1, Some(formatted.0), nodes)
  {
    if n == |frames| + 1 {
      SaveBottom(h, frames, bottom);
      PlugWithin(h, universe, frames, bottom);
    } else {
      assert nodes[n - 1] == nodes[..|frames|][n - 1];
      SaveFilled(h, universe, db, ops, frames, bottom, n, key, lastRoot.value, nodes[n - 1]);
    }
    SaveFormatted(h, universe, db, ops, frames, bottom, n - 1);
  }

  /** The last round, at the top: the trie is stored under the last reference. */
  lemma {:induction false} SaveDone(h: Hash, universe: iset<Bytes>, db: DB, ops: seq<BatchOp>, frames: seq<Frame>,
                                    bottom: Tree, key: Nibbles, lastRoot: Option<Item>, nodes: seq<Node>)
    requires CollisionFree(h, universe) && DbOk(h, universe, db)
    requires Pending(h, universe, db, ops, frames, bottom, 0, key, lastRoot, nodes)
    ensures AllOk(frames) && WF(Plug(frames, bottom)) && Within(h, universe, Plug(frames, bottom))
    ensures lastRoot == Some(Str(RootOf(h, Plug(frames, bottom))))
    ensures RootStored(h, Batch(db, ops), Plug(frames, bottom))
    ensures DbOk(h, universe, Batch(db, ops)) && Extends(db, Batch(db, ops))
  {
    assert frames[0..] == frames;
    BatchExtends(h, universe, db, ops);
  }

  lemma {:induction false} FollowsBelow(h: Hash, stack: seq<Node>, frames: seq<Frame>, more: seq<Node>,
                                        extra: seq<Frame>, bottom: Tree)
    requires AllMatch(h, stack, frames) && Follows(h, more, extra, bottom)
    ensures Follows(h, stack + more, frames + extra, bottom)
  {
    var n := |frames + extra|;
    forall i | 0 <= i < n ensures Matches(h, (stack + more)[..n][i], (frames + extra)[i]) {
      if i >= |frames| {
        assert more[..|extra|][i - |frames|] == more[i - |frames|];
      }
    }
  }
}
