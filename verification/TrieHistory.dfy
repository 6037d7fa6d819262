/** The shape of a trie depends on its contents only. */
module TrieHistory {
  import opened Rlp
  import opened Trie

  /** The two tries read the same everywhere. */
  ghost predicate Same(t: Tree, u: Tree)
    requires WF(t) && WF(u)
  {
    forall k :: Get(t, k) == Get(u, k)
  }

  /** A canonical branch holds two keys that part at its very position. */
  lemma {:induction false} Parting(t: Tree) returns (a: Nibbles, b: Nibbles)
    requires Canonical(t) && t.Branch?
    ensures Get(t, a) != [] && Get(t, b) != []
    ensures b != [] && (a == [] || a[0] != b[0])
  {
    var cs := t.children;
    if t.value != [] {
      a := [];
      NoneOccupied(cs);
      var i: nat :| i < 16 && !cs[i].Nil?;
      var r := SomeKey(cs[i]);
      b := [i] + r;
      assert b[1..] == r;
    } else {
      var i, j := TwoOccupied(cs);
      var r := SomeKey(cs[i]);
      var s := SomeKey(cs[j]);
      a, b := [i] + r, [j] + s;
      assert a[1..] == r && b[1..] == s;
    }
  }

  /** Above a branch, every key has the extension's key in front. */
  lemma {:induction false} PartingBelow(t: Tree) returns (a: Nibbles, b: Nibbles)
    requires Canonical(t) && t.Ext?
    ensures Get(t, t.key + a) != [] && Get(t, t.key + b) != []
    ensures b != [] && (a == [] || a[0] != b[0])
  {
    a, b := Parting(t.child);
    assert (t.key + a)[|t.key|..] == a && (t.key + b)[|t.key|..] == b;
  }

  /** Keys that part after `key` have no longer prefix in common. */
  lemma {:induction false} CommonPrefixStops(p: Nibbles, key: Nibbles, a: Nibbles, b: Nibbles)
    requires p <= key + a && p <= key + b
    requires b != [] && (a == [] || a[0] != b[0])
    ensures p <= key
  {
    var n := if |p| < |key| then |p| else |key|;
    assert p[..n] == (key + a)[..n] == key[..n];
  }

  lemma {:induction false} ExtKeyNoLonger(t: Tree, u: Tree)
    requires Canonical(t) && Canonical(u) && t.Ext? && u.Ext? && Same(t, u)
    ensures u.key <= t.key
  {
    var a, b := PartingBelow(t);
    assert u.key <= t.key + a && u.key <= t.key + b by {
      assert Get(u, t.key + a) != [] && Get(u, t.key + b) != [];
    }
    CommonPrefixStops(u.key, t.key, a, b);
  }

  lemma {:induction false} DifferentShapes(t: Tree, u: Tree)
    requires Canonical(t) && Canonical(u) && Same(t, u)
    ensures t.Nil? <==> u.Nil?
    ensures t.Leaf? <==> u.Leaf?
    ensures t.Ext? <==> u.Ext?
  {
    HasOneShape(t, u);
    HasOneShape(u, t);
  }

  lemma {:induction false} HasOneShape(t: Tree, u: Tree)
    requires Canonical(t) && Canonical(u) && Same(t, u)
    ensures t.Nil? ==> u.Nil?
    ensures t.Leaf? ==> u.Leaf?
    ensures t.Ext? ==> !u.Branch?
  {
    if !u.Nil? {
      var k := SomeKey(u);
      assert Get(t, k) != [];
    }
    if u.Branch? {
      var a, b := Parting(u);
      assert Get(t, a) != [] && Get(t, b) != [];
    } else if u.Ext? {
      var a, b := PartingBelow(u);
      assert Get(t, u.key + a) != [] && Get(t, u.key + b) != [];
      assert (u.key + a)[|u.key|..] == a && (u.key + b)[|u.key|..] == b;
    } else if t.Leaf? {
      assert Get(u, t.key) != [];
    }
  }

  /** Canonical tries that read the same are the same. */
  lemma {:induction false} CanonicalIsUnique(t: Tree, u: Tree)
    requires Canonical(t) && Canonical(u) && Same(t, u)
    ensures t == u
  {
    DifferentShapes(t, u);
    match t
    case Nil =>
    case Leaf(key, value) =>
      assert Get(u, key) == value;
    case Ext(key, child) =>
      ExtKeyNoLonger(t, u);
      ExtKeyNoLonger(u, t);
      forall k ensures Get(child, k) == Get(u.child, k) {
        assert (key + k)[|key|..] == k;
        assert Get(t, key + k) == Get(u, key + k);
      }
      CanonicalIsUnique(child, u.child);
    case Branch(cs, value) =>
      assert Get(t, []) == Get(u, []);
      forall i: nibble ensures cs[i] == u.children[i] {
        forall k ensures Get(cs[i], k) == Get(u.children[i], k) {
          assert ([i] + k)[1..] == k;
          assert Get(t, [i] + k) == Get(u, [i] + k);
        }
        CanonicalIsUnique(cs[i], u.children[i]);
      }
  }

  // ---------------------------------------------------------------------------------------
  // Runs
  // ---------------------------------------------------------------------------------------

  /** `put` and `del`; putting an empty value deletes. */
  datatype Op = PutOp(key: Nibbles, value: Bytes) | DelOp(key: Nibbles)

  ghost function Apply(t: Tree, op: Op): (r: Tree)
    requires WF(t)
    ensures WF(r)
  {
    PutDelWF(t, op);
    if op.PutOp? && op.value != [] then Put(t, op.key, op.value) else DelRoot(t, op.key)
  }

  lemma {:induction false} PutDelWF(t: Tree, op: Op)
    requires WF(t)
    ensures op.PutOp? && op.value != [] ==> WF(Put(t, op.key, op.value))
    ensures WF(DelRoot(t, op.key))
  {
    if op.PutOp? && op.value != [] {
      PutIsWF(t, op.key, op.value);
    }
    DelIsWF(t, op.key);
  }

  type Contents = map<Nibbles, Bytes>

  function ApplyToMap(m: Contents, op: Op): Contents {
    if op.PutOp? && op.value != [] then m[op.key := op.value] else m - {op.key}
  }

  function Read(m: Contents, k: Nibbles): Bytes {
    if k in m then m[k] else []
  }

  ghost predicate SameContents(m: Contents, n: Contents) {
    forall k :: Read(m, k) == Read(n, k)
  }

  ghost function RunTree(ops: seq<Op>): (t: Tree)
    ensures WF(t)
  {
    if ops == [] then Nil else Apply(RunTree(ops[..|ops| - 1]), ops[|ops| - 1])
  }

  function RunMap(ops: seq<Op>): Contents {
    if ops == [] then map[] else ApplyToMap(RunMap(ops[..|ops| - 1]), ops[|ops| - 1])
  }

  /** Runs over keys of one length, and runs that only ever put. */
  ghost predicate Regular(ops: seq<Op>) {
    || (exists n: nat :: EqualLengths(ops, n))
    || forall i | 0 <= i < |ops| :: ops[i].PutOp? && ops[i].value != []
  }

  ghost predicate EqualLengths(ops: seq<Op>, n: nat) {
    forall i | 0 <= i < |ops| :: |ops[i].key| == n
  }

  lemma {:induction false} EqualLengthRun(ops: seq<Op>, n: nat)
    requires EqualLengths(ops, n)
    ensures Canonical(RunTree(ops)) && KeyLength(RunTree(ops), n)
    ensures forall k :: Get(RunTree(ops), k) == Read(RunMap(ops), k)
  {
    if ops != [] {
      var init, op := ops[..|ops| - 1], ops[|ops| - 1];
      EqualLengthRun(init, n);
      var t := RunTree(init);
      if op.PutOp? && op.value != [] {
        PutIsWF(t, op.key, op.value);
        PutKeyLength(t, op.key, op.value);
        forall k ensures Get(RunTree(ops), k) == Read(RunMap(ops), k) {
          GetPut(t, op.key, op.value, k);
        }
      } else {
        DelEqualLength(t, op.key);
        assert !(op.key == [] && t.Branch?);
        forall k ensures Get(RunTree(ops), k) == Read(RunMap(ops), k) {
          GetDel(t, op.key, k);
        }
      }
    }
  }

  /** An operation that is exact and leaves a canonical trie. */
  ghost predicate Clean(t: Tree, op: Op)
    requires WF(t)
  {
    (op.PutOp? && op.value != []) || (DelRootIsExact(t, op.key) && !Strands(t, op.key))
  }

  /** Runs, over whatever keys, in which every deletion is. */
  ghost predicate Careful(ops: seq<Op>) {
    ops == [] || (Careful(ops[..|ops| - 1]) && Clean(RunTree(ops[..|ops| - 1]), ops[|ops| - 1]))
  }

  /** What an operation leaves under its key; nothing is the empty value. */
  function Left(op: Op): Bytes {
    if op.PutOp? then op.value else []
  }

  /** `u` reads like `t` with that under the key. */
  ghost predicate IsUpdate(t: Tree, op: Op, u: Tree)
    requires WF(t) && WF(u)
  {
    forall q :: Get(u, q) == if q == op.key then Left(op) else Get(t, q)
  }

  /** From a canonical trie, an operation is a clean one exactly when it does what it does to a map and leaves a
      canonical trie. */
  lemma {:induction false} CleanExactly(t: Tree, op: Op)
    requires Canonical(t)
    ensures Clean(t, op) <==> Canonical(Apply(t, op)) && IsUpdate(t, op, Apply(t, op))
  {
    if op.PutOp? && op.value != [] {
      PutIsWF(t, op.key, op.value);
      forall q ensures Get(Apply(t, op), q) == if q == op.key then op.value else Get(t, q) {
        GetPut(t, op.key, op.value, q);
      }
    } else {
      DelExactly(t, op.key);
      DelCanonicalExactly(t, op.key);
      UpdateIsRemoval(t, op, DelRoot(t, op.key));
    }
  }

  lemma {:induction false} UpdateIsRemoval(t: Tree, op: Op, u: Tree)
    requires WF(t) && WF(u) && Left(op) == []
    ensures IsUpdate(t, op, u) <==> IsRemoval(t, op.key, u)
  {
    if IsRemoval(t, op.key, u) {
      forall q ensures Get(u, q) == if q == op.key then Left(op) else Get(t, q) {
      }
    }
    if IsUpdate(t, op, u) {
      forall q ensures Get(u, q) == if q == op.key then [] else Get(t, q) {
      }
    }
  }

  /** A careful run leaves a canonical trie that reads like a map. */
  lemma {:induction false} RunRefinesMap(ops: seq<Op>)
    requires Careful(ops)
    ensures Canonical(RunTree(ops))
    ensures forall k :: Get(RunTree(ops), k) == Read(RunMap(ops), k)
  {
    if ops != [] {
      var init, op := ops[..|ops| - 1], ops[|ops| - 1];
      RunRefinesMap(init);
      CleanExactly(RunTree(init), op);
    }
  }

  /** Runs over keys of one length are careful, and so are runs of puts. */
  lemma {:induction false} RegularIsCareful(ops: seq<Op>)
    requires Regular(ops)
    ensures Careful(ops)
  {
    if ops != [] {
      var init, op := ops[..|ops| - 1], ops[|ops| - 1];
      if n: nat :| EqualLengths(ops, n) {
        assert EqualLengths(init, n);
        EqualLengthRun(init, n);
        DelEqualLength(RunTree(init), op.key);
        DelCanonicalExactly(RunTree(init), op.key);
        assert op in ops && !(op.key == [] && RunTree(init).Branch?);
      } else {
        assert forall i | 0 <= i < |init| :: init[i] == ops[i];
      }
      assert Regular(init);
      RegularIsCareful(init);
    }
  }

  /** A run of puts, whatever the keys. */
  lemma {:induction false} PutRun(ops: seq<Op>)
    requires forall i | 0 <= i < |ops| :: ops[i].PutOp? && ops[i].value != []
    ensures Canonical(RunTree(ops))
    ensures forall k :: Get(RunTree(ops), k) == Read(RunMap(ops), k)
  {
    RegularIsCareful(ops);
    RunRefinesMap(ops);
  }

  lemma {:induction false} TrieIsItsContents(t: Tree, u: Tree, m: Contents, n: Contents)
    requires Canonical(t) && Canonical(u)
    requires (forall k :: Get(t, k) == Read(m, k)) && (forall k :: Get(u, k) == Read(n, k))
    ensures t == u <==> SameContents(m, n)
  {
    if SameContents(m, n) {
      CanonicalIsUnique(t, u);
    } else {
      var k :| Read(m, k) != Read(n, k);
      assert Get(t, k) != Get(u, k);
    }
  }

  /** History independence: what was done does not matter, only what is left. */
  lemma {:induction false} HistoryIndependence(ops: seq<Op>, others: seq<Op>)
    requires Careful(ops) && Careful(others)
    ensures RunTree(ops) == RunTree(others) <==>
            SameContents(RunMap(ops), RunMap(others))
  {
    RunRefinesMap(ops);
    RunRefinesMap(others);
    TrieIsItsContents(RunTree(ops), RunTree(others), RunMap(ops), RunMap(others));
  }

  /** Deleting a key that was not there before it was put gives back the very same trie exactly when the deletion
      is a clean one. */
  lemma {:induction false} PutThenDelExactly(t: Tree, k: Nibbles, v: Bytes)
    requires Canonical(t) && v != [] && Get(t, k) == []
    ensures WF(Put(t, k, v)) && (DelRoot(Put(t, k, v), k) == t <==> Clean(Put(t, k, v), DelOp(k)))
  {
    PutIsWF(t, k, v);
    var u := Put(t, k, v);
    CleanExactly(u, DelOp(k));
    forall q ensures Get(u, q) == if q == k then v else Get(t, q) {
      GetPut(t, k, v, q);
    }
    if Clean(u, DelOp(k)) {
      CanonicalIsUnique(DelRoot(u, k), t);
    }
  }

  /** With keys of one length it always is. */
  lemma {:induction false} PutThenDel(t: Tree, k: Nibbles, v: Bytes)
    requires Canonical(t) && KeyLength(t, |k|) && v != [] && Get(t, k) == []
    ensures WF(Put(t, k, v)) && DelRoot(Put(t, k, v), k) == t
  {
    PutThenDelExactly(t, k, v);
    PutIsWF(t, k, v);
    PutKeyLength(t, k, v);
    DelEqualLength(Put(t, k, v), k);
    DelCanonicalExactly(Put(t, k, v), k);
  }
}
