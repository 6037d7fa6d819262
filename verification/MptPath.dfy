/** The path walked by `findPath` as a zipper: the nodes above the place where the walk stops are
    frames with a hole, and `Put` and `Del` only touch the place itself, or the frame above it. */
module MptPath {
  import opened Rlp
  import opened Trie

  datatype Frame =
    | ExtFrame(nibbles: Nibbles)
    | BranchFrame(children: seq<Tree>, value: Bytes, index: nibble)
  {
    ghost predicate Ok() {
      BranchFrame? ==> |children| == 16
    }

    /** The nibbles between this node and its child on the path. */
    function Key(): Nibbles {
      if ExtFrame? then nibbles else [index]
    }
  }

  ghost function Fill(f: Frame, t: Tree): Tree
    requires f.Ok()
  {
    match f
    case ExtFrame(key) => Ext(key, t)
    case BranchFrame(cs, value, i) => Branch(cs[i := t], value)
  }

  ghost predicate AllOk(frames: seq<Frame>) {
    forall i | 0 <= i < |frames| :: frames[i].Ok()
  }

  ghost function Plug(frames: seq<Frame>, t: Tree): Tree
    requires AllOk(frames)
  {
    if frames == [] then t else Fill(frames[0], Plug(frames[1..], t))
  }

  function KeyOf(frames: seq<Frame>): Nibbles {
    if frames == [] then [] else frames[0].Key() + KeyOf(frames[1..])
  }

  // ---------------------------------------------------------------------------------------
  // The walk
  // ---------------------------------------------------------------------------------------

  /** Does the walk for `k` go on below this node? */
  ghost predicate Descends(t: Tree, k: Nibbles)
    requires WF(t)
  {
    match t
    case Nil => false
    case Leaf(_, _) => false
    case Ext(key, _) => key <= k
    case Branch(cs, _) => k != [] && !cs[k[0]].Nil?
  }

  ghost function FrameAt(t: Tree, k: Nibbles): (f: Frame)
    requires WF(t) && Descends(t, k)
    ensures f.Ok()
  {
    if t.Ext? then ExtFrame(t.key) else BranchFrame(t.children, t.value, k[0])
  }

  ghost function ChildAt(t: Tree, k: Nibbles): (c: Tree)
    requires WF(t) && Descends(t, k)
    ensures WF(c) && !c.Nil? && c < t
  {
    if t.Ext? then t.child else t.children[k[0]]
  }

  ghost function LeftAt(t: Tree, k: Nibbles): Nibbles
    requires WF(t) && Descends(t, k)
  {
    if t.Ext? then k[|t.key|..] else k[1..]
  }

  lemma {:induction false} StepFits(t: Tree, k: Nibbles)
    requires WF(t) && Descends(t, k)
    ensures var f := FrameAt(t, k);
            f.Key() + LeftAt(t, k) == k && |f.Key()| >= 1 && Fill(f, ChildAt(t, k)) == t
  {}

  /** The frames above the node at which the walk for `k` stops. */
  ghost function Frames(t: Tree, k: Nibbles): (frames: seq<Frame>)
    requires WF(t)
    ensures AllOk(frames)
  {
    if Descends(t, k) then [FrameAt(t, k)] + Frames(ChildAt(t, k), LeftAt(t, k)) else []
  }

  /** That node. */
  ghost function Target(t: Tree, k: Nibbles): (target: Tree)
    requires WF(t)
    ensures WF(target) && (target.Nil? <==> t.Nil?)
    ensures !Descends(target, Rest(t, k))
  {
    if Descends(t, k) then Target(ChildAt(t, k), LeftAt(t, k)) else t
  }

  /** What is left of the key at that node. */
  ghost function Rest(t: Tree, k: Nibbles): Nibbles
    requires WF(t)
  {
    if Descends(t, k) then Rest(ChildAt(t, k), LeftAt(t, k)) else k
  }

  /** The walk ends on the key. */
  ghost predicate Found(t: Tree, k: Nibbles)
    requires WF(t)
  {
    var target := Target(t, k);
    (target.Leaf? && target.key == Rest(t, k)) || (target.Branch? && Rest(t, k) == [])
  }

  /** One more frame on top. */
  lemma {:induction false} FrameOnTop(f: Frame, frames: seq<Frame>, t: Tree)
    requires f.Ok() && AllOk(frames)
    ensures AllOk([f] + frames) && Plug([f] + frames, t) == Fill(f, Plug(frames, t))
    ensures KeyOf([f] + frames) == f.Key() + KeyOf(frames)
  {
    hide Fill;
    assert ([f] + frames)[1..] == frames;
  }

  /** The frames' keys and the rest make up the key; plugging the target gives the trie back. */
  lemma {:induction false} PathFits(t: Tree, k: Nibbles)
    requires WF(t)
    ensures k == KeyOf(Frames(t, k)) + Rest(t, k)
    ensures Plug(Frames(t, k), Target(t, k)) == t
    decreases t
  {
    hide Descends, FrameAt, ChildAt, LeftAt, WF, Fill;
    if Descends(t, k) {
      var f, u, r := FrameAt(t, k), ChildAt(t, k), LeftAt(t, k);
      StepFits(t, k);
      PathFits(u, r);
      FrameOnTop(f, Frames(u, r), Target(u, r));
      assert f.Key() + (KeyOf(Frames(u, r)) + Rest(u, r)) == (f.Key() + KeyOf(Frames(u, r))) + Rest(u, r);
    }
  }

  lemma {:induction false} GetAtTarget(t: Tree, k: Nibbles)
    requires WF(t)
    ensures Get(t, k) == if !Found(t, k) then [] else Target(t, k).value
    decreases t
  {
    if Descends(t, k) {
      GetAtTarget(ChildAt(t, k), LeftAt(t, k));
    }
  }

  /** `put` replaces the target and nothing else. */
  lemma {:induction false} PutAtTarget(t: Tree, k: Nibbles, v: Bytes)
    requires WF(t) && v != []
    ensures Put(t, k, v) == Plug(Frames(t, k), Put(Target(t, k), Rest(t, k), v))
    decreases t
  {
    if Descends(t, k) {
      var f, u, r := FrameAt(t, k), ChildAt(t, k), LeftAt(t, k);
      StepFits(t, k);
      PutAtTarget(u, r, v);
      assert Frames(t, k)[1..] == Frames(u, r);
      assert Put(t, k, v) == Fill(f, Put(u, r, v));
    }
  }

  lemma {:induction false} AllOkConcat(above: seq<Frame>, below: seq<Frame>)
    requires AllOk(above) && AllOk(below)
    ensures AllOk(above + below)
  {}

  lemma {:induction false} PlugSplit(above: seq<Frame>, below: seq<Frame>, t: Tree)
    requires AllOk(above) && AllOk(below)
    ensures AllOk(above + below)
    ensures Plug(above + below, t) == Plug(above, Plug(below, t))
    ensures KeyOf(above + below) == KeyOf(above) + KeyOf(below)
  {
    if above == [] {
      assert above + below == below;
    } else {
      var rest := above[1..];
      hide Fill;
      assert (above + below)[1..] == rest + below && (above + below)[0] == above[0];
      PlugSplit(rest, below, t);
      AllOkConcat(above, below);
      Associate(above[0].Key(), KeyOf(rest), KeyOf(below));
    }
  }

  lemma {:induction false} PlugIsWF(frames: seq<Frame>, t: Tree)
    requires AllOk(frames) && WF(Plug(frames, t))
    ensures WF(t)
  {
    if frames != [] {
      if frames[0].BranchFrame? {
        assert frames[0].children[frames[0].index := Plug(frames[1..], t)][frames[0].index] == Plug(frames[1..], t);
      }
      PlugIsWF(frames[1..], t);
    }
  }

  // ---------------------------------------------------------------------------------------
  // Deletion
  // ---------------------------------------------------------------------------------------

  /** Plugs a tree that may have to be merged with the extension above it. */
  ghost function PlugMerged(frames: seq<Frame>, t: Tree): Tree
    requires AllOk(frames)
  {
    if frames != [] && frames[|frames| - 1].ExtFrame?
    then Plug(frames[..|frames| - 1], Prepend(frames[|frames| - 1].nibbles, t))
    else Plug(frames, t)
  }

  /** A branch or an extension stays what it is when something below it changes, so only the lowest
      extension can be merged. */
  lemma {:induction false} PlugMergedBelow(f: Frame, frames: seq<Frame>, t: Tree)
    requires f.Ok() && AllOk(frames) && frames != []
    ensures PlugMerged([f] + frames, t) == Fill(f, PlugMerged(frames, t))
  {
    var all := [f] + frames;
    var n := |frames|;
    assert all[|all| - 1] == frames[n - 1];
    if frames[n - 1].ExtFrame? {
      assert all[..n][1..] == frames[..n - 1];
      assert all[..n][0] == f;
    } else {
      assert all[1..] == frames;
    }
  }

  /** The path of a found key, cut above the branch that loses an occupant. */
  ghost function Above(t: Tree, k: Nibbles): seq<Frame>
    requires WF(t)
  {
    var frames := Frames(t, k);
    if Target(t, k).Leaf? && frames != [] then frames[..|frames| - 1] else frames
  }

  /** That branch. */
  ghost function LosingBranch(t: Tree, k: Nibbles): (branch: Tree)
    requires WF(t) && Found(t, k) && !t.Leaf?
    ensures branch.Branch?
  {
    if Target(t, k).Branch? then Target(t, k)
    else
      FoundLeafHasBranch(t, k);
      var f := Frames(t, k)[|Frames(t, k)| - 1];
      Branch(f.children, f.value)
  }

  /** The children it is left with. */
  ghost function Emptied(t: Tree, k: Nibbles): seq<Tree>
    requires WF(t) && Found(t, k) && !t.Leaf?
  {
    if Target(t, k).Branch? then Target(t, k).children
    else
      FoundLeafHasBranch(t, k);
      var f := Frames(t, k)[|Frames(t, k)| - 1];
      f.children[f.index := Nil]
  }

  /** The branch afterwards, merged with its last child if it must be. */
  ghost function Loser(t: Tree, k: Nibbles): Tree
    requires WF(t) && Found(t, k) && !t.Leaf?
  {
    LosingFits(t, k);
    Collapse(Emptied(t, k), LosingBranch(t, k).value)
  }

  /** The nibbles below the frames above the losing branch. */
  ghost function Below(t: Tree, k: Nibbles): Nibbles
    requires WF(t)
  {
    var frames := Frames(t, k);
    if Target(t, k).Leaf? && frames != [] then frames[|frames| - 1].Key() + Target(t, k).key else []
  }

  /** The losing branch sits below the frames above it. */
  lemma {:induction false} LosingFits(t: Tree, k: Nibbles)
    requires WF(t) && Found(t, k) && !t.Leaf?
    ensures AllOk(Above(t, k)) && |Emptied(t, k)| == 16
    ensures Plug(Above(t, k), LosingBranch(t, k)) == t
    ensures k == KeyOf(Above(t, k)) + Below(t, k)
  {
    PathFits(t, k);
    var frames, target := Frames(t, k), Target(t, k);
    if target.Leaf? {
      FoundLeafHasBranch(t, k);
      SplitLast(frames, target);
      var f := frames[|frames| - 1];
      assert f.children[f.index := target] == f.children;
      Associate(KeyOf(Above(t, k)), f.Key(), target.key);
    }
  }

  /** Cutting off the lowest frame. */
  lemma {:induction false} SplitLast(frames: seq<Frame>, t: Tree)
    requires AllOk(frames) && frames != []
    ensures var above, f := frames[..|frames| - 1], frames[|frames| - 1];
            && Plug(frames, t) == Plug(above, Fill(f, t)) && KeyOf(frames) == KeyOf(above) + f.Key()
  {
    var above, f := frames[..|frames| - 1], frames[|frames| - 1];
    assert frames == above + [f];
    PlugSplit(above, [f], t);
    PlugOne([f], t);
  }

  lemma {:induction false} PlugOne(frames: seq<Frame>, t: Tree)
    requires AllOk(frames) && |frames| <= 1
    ensures Plug(frames, t) == if frames == [] then t else Fill(frames[0], t)
    ensures KeyOf(frames) == if frames == [] then [] else frames[0].Key()
  {
    if frames != [] {
      assert frames[1..] == [];
      assert frames[0].Key() + [] == frames[0].Key();
    }
  }

  lemma {:induction false} Associate<T>(a: seq<T>, b: seq<T>, c: seq<T>)
    ensures a + (b + c) == (a + b) + c
  {}

  /** The parent of a leaf is a branch, and it holds the leaf. */
  lemma {:induction false} FoundLeafHasBranch(t: Tree, k: Nibbles)
    requires WF(t) && !t.Leaf? && Target(t, k).Leaf?
    ensures var frames := Frames(t, k);
            && frames != []
            && var f := frames[|frames| - 1];
            && f.BranchFrame? && f.children[f.index] == Target(t, k)
    decreases t
  {
    if Descends(t, k) {
      var f, u, r := FrameAt(t, k), ChildAt(t, k), LeftAt(t, k);
      if !u.Leaf? {
        FoundLeafHasBranch(u, r);
        assert Frames(t, k)[|Frames(t, k)| - 1] == Frames(u, r)[|Frames(u, r)| - 1];
      }
    }
  }

  /** `del` of a key that is not there changes nothing. */
  lemma {:induction false} DelNotFound(t: Tree, k: Nibbles)
    requires WF(t) && !Found(t, k)
    ensures Del(t, k) == t
    decreases t
  {
    if Descends(t, k) {
      var f, u, r := FrameAt(t, k), ChildAt(t, k), LeftAt(t, k);
      DelNotFound(u, r);
      if t.Branch? {
        assert t.children[k[0] := u] == t.children;
        assert !(u.Leaf? && u.key == r);
      }
    } else if t.Branch? {
      assert t.children[k[0] := Nil] == t.children;
    }
  }

  /** The leaf to go hangs directly below the top branch. */
  lemma {:induction false} DelTopLeaf(t: Tree, k: Nibbles)
    requires WF(t) && Descends(t, k) && ChildAt(t, k).Leaf? && ChildAt(t, k).key == LeftAt(t, k)
    ensures Found(t, k) && Above(t, k) == [] && Del(t, k) == Loser(t, k)
  {
    var u, r := ChildAt(t, k), LeftAt(t, k);
    assert Frames(u, r) == [] && Frames(t, k) == [FrameAt(t, k)];
    assert Target(t, k) == Target(u, r) == u && Rest(t, k) == Rest(u, r) == r;
    assert FrameAt(t, k) == BranchFrame(t.children, t.value, k[0]);
  }

  /** The leaf to go, or the branch that is to lose its value, is further down. */
  lemma {:induction false} AboveBelow(t: Tree, k: Nibbles)
    requires WF(t) && Descends(t, k) && Found(t, k) && !ChildAt(t, k).Leaf?
    ensures var u, r := ChildAt(t, k), LeftAt(t, k);
            && Found(u, r) && Loser(t, k) == Loser(u, r)
            && Above(t, k) == [FrameAt(t, k)] + Above(u, r)
  {
    var u, r := ChildAt(t, k), LeftAt(t, k);
    assert Frames(t, k) == [FrameAt(t, k)] + Frames(u, r);
    assert Target(t, k) == Target(u, r) && Rest(t, k) == Rest(u, r);
    if Target(u, r).Leaf? {
      FoundLeafHasBranch(u, r);
      FoundLeafHasBranch(t, k);
    }
  }

  /** `del` of a key that is there takes one occupant from one branch, and merges what is left of
      that branch with an extension above it. */
  lemma {:induction false} DelAtTarget(t: Tree, k: Nibbles)
    requires WF(t) && Found(t, k) && !t.Leaf?
    ensures AllOk(Above(t, k)) && Del(t, k) == PlugMerged(Above(t, k), Loser(t, k))
    decreases t
  {
    if Descends(t, k) {
      var u, r := ChildAt(t, k), LeftAt(t, k);
      if u.Leaf? {
        assert Target(t, k) == Target(u, r) == u && Rest(t, k) == Rest(u, r) == r;
        DelTopLeaf(t, k);
      } else {
        AboveBelow(t, k);
        DelAtTarget(u, r);
        DelBelow(t, k);
      }
    }
  }

  /** One step of `DelAtTarget`. */
  lemma {:induction false} DelBelow(t: Tree, k: Nibbles)
    requires WF(t) && Descends(t, k) && Found(t, k)
    requires var f, u, r := FrameAt(t, k), ChildAt(t, k), LeftAt(t, k);
             && !u.Leaf? && AllOk(Above(u, r)) && Found(u, r)
             && Del(u, r) == PlugMerged(Above(u, r), Loser(u, r))
    ensures var f, u, r := FrameAt(t, k), ChildAt(t, k), LeftAt(t, k);
            Del(t, k) == PlugMerged([f] + Above(u, r), Loser(u, r))
  {
    var f, u, r := FrameAt(t, k), ChildAt(t, k), LeftAt(t, k);
    var above := Above(u, r);
    if above != [] {
      PlugMergedBelow(f, above, Loser(u, r));
      MergedKeepsShape(above, Loser(u, r));
    } else {
      assert [f][..0] == [];
      assert Plug([f], Loser(u, r)) == Fill(f, Loser(u, r));
    }
  }

  /** With a frame above it, what is plugged does not change the kind of node at the top, unless
      that frame is a lone extension. */
  lemma {:induction false} MergedKeepsShape(frames: seq<Frame>, t: Tree)
    requires AllOk(frames) && frames != []
    ensures frames[0].BranchFrame? ==> PlugMerged(frames, t).Branch?
    ensures |frames| >= 2 && frames[0].ExtFrame? ==> PlugMerged(frames, t).Ext?
  {
    if |frames| >= 2 {
      assert frames[..|frames| - 1][0] == frames[0];
    }
  }
}
