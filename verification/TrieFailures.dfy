/** Tries on which the calls do not do what they promise: one for each way that the theory leaves open. */
module TrieFailures {
  import opened Wire
  import opened TrieModel
  import opened TrieKids
  import opened TrieTheory
  import opened TrieRuns
  import opened TrieMatch

  /** A node that holds one subscription and has no children. */
  const LEAF := Node(1, [], NO_KIDS)

  function Leaves(n: nat): (s: seq<Tree>)
    ensures |s| == n && forall i :: 0 <= i < n ==> s[i] == LEAF
  {
    seq(n, _ => LEAF)
  }

  lemma {:induction false} LeavesCount(n: nat)
    ensures NonNull(Leaves(n)) == n
  {
    if n > 0 {
      LeavesCount(n - 1);
      assert Leaves(n)[1..] == Leaves(n - 1);
    }
  }

  /** The empty string and the strings of one of the bytes below n, each subscribed once, in a dense node. */
  function DenseNode(n: Byte): Tree
    requires n > 0
  {
    Node(1, [], Dense(0, n - 1, n, Leaves(n)))
  }

  lemma DenseWF(n: Byte)
    requires n > SPARSE_MAX
    ensures WF(DenseNode(n))
  {
    LeavesCount(n);
  }

  /** The same without the string of byte 1. */
  function HoledNode(n: Byte): Tree
    requires n > 2
  {
    Node(1, [], Dense(0, n - 1, n - 1, Leaves(n)[1 := Null]))
  }

  lemma HoledWF(n: Byte)
    requires n > SPARSE_MAX + 1
    ensures WF(HoledNode(n)) && Child(HoledNode(n).kids, 1) == Null
  {
    LeavesCount(n);
    NonNullUpdate(Leaves(n), 1, Null);
  }

  lemma FullLoses(t: Tree, c: Byte)
    requires WF(t) && t.Node? && t.prefix == [] && t.refcount == 1 && Child(t.kids, c) == Null
    requires t.kids.Sparse? && |t.kids.chars| == SPARSE_MAX
    ensures LosesCount(t, [c]) && Count(t, []) == 1 && Count(Subscribe(t, [c]), []) == 0
  {
    assert Converts(t, [c], []);
    SubscribeCount(t, [c], []);
  }

  lemma SparseWF(cs: Bytes)
    requires |cs| == SPARSE_MAX && Distinct(cs)
    ensures WF(Node(1, [], Sparse(cs, Leaves(|cs|))))
  {
  }

  /** A subscription too many: a subscribed node with eight children gets a ninth, and loses its own count. */
  lemma SubscribeLoses() returns (t: Tree, d: Bytes)
    ensures WF(t) && LosesCount(t, d) && Count(t, []) == 1 && Count(Subscribe(t, d), []) == 0
  {
    var cs: Bytes := seq(SPARSE_MAX, i requires 0 <= i < SPARSE_MAX => i);
    var c: Byte := SPARSE_MAX;
    SparseWF(cs);
    t, d := Node(1, [], Sparse(cs, Leaves(|cs|))), [c];
    assert Find(cs, c) == |cs|;
    FullLoses(t, c);
  }

  /** The 2^32nd subscription takes the 2^32 - 1 before it away, and leaves a node that holds nothing. */
  lemma SubscribeWraps() returns (t: Tree, d: Bytes)
    ensures WF(t) && Count(t, d) == REFCOUNT_MAX && Hollows(t, d)
    ensures Count(Subscribe(t, d), d) == 0 && !WF(Subscribe(t, d))
  {
    t, d := Node(REFCOUNT_MAX, [], NO_KIDS), [];
    SubscribeWF(t, d);
    SubscribeCount(t, d, d);
  }

  lemma LeafSingle(x: Bytes)
    ensures Count(LEAF, x) == if x == [] then 1 else 0
  {
  }

  lemma NineLoses(t: Tree, c: Byte)
    requires WF(t) && t.Node? && t.prefix == [] && t.refcount == 1 && Child(t.kids, c) == LEAF
    requires t.kids.Dense? && t.kids.nbr == SPARSE_MAX + 1
    ensures Count(t, [c]) == 1 && ShrinkLoses(t, [c])
    ensures Count(t, []) == 1 && Unsubscribe(t, [c]).Done? && Count(Unsubscribe(t, [c]).tree, []) == 0
  {
    assert After(t.prefix, [c]) == [];
    forall x { LeafSingle(x); }
    assert Single(LEAF, []);
    Vanishes(LEAF, []);
    UnsubscribeSubscribed(t, [c]);
    UnsubscribeDown(t, [c]);
    PruneCount(t, c, []);
  }

  /** An unsubscription too many: a subscribed node with nine children loses one, and with it its own count. */
  lemma UnsubscribeLoses() returns (t: Tree, d: Bytes)
    ensures WF(t) && Count(t, d) == 1 && ShrinkLoses(t, d)
    ensures Count(t, []) == 1 && Unsubscribe(t, d).Done? && Count(Unsubscribe(t, d).tree, []) == 0
  {
    var n, c: Byte := SPARSE_MAX + 1, 0;
    t, d := DenseNode(n), [c];
    DenseWF(n);
    NineLoses(t, c);
  }

  lemma HoleWalks(t: Tree, c: Byte, rest: Bytes)
    requires WF(t) && t.Node? && t.prefix == [] && HasSlot(t.kids, c) && Child(t.kids, c) == Null && t.kids.Dense?
    ensures Walks(t, [c] + rest) && After(t.prefix, [c] + rest) == rest
    ensures HitsNull(t, [c] + rest) <==> rest != []
    ensures rest == [] ==> Gap(t, [c]) && (GapAtNine(t, [c]) <==> t.kids.nbr <= SPARSE_MAX + 1)
    ensures Count(t, [c]) == 0
  {
    var d := [c] + rest;
    assert d[0] == c && d[1..] == rest;
    if rest == [] { assert d == [c]; }
  }

  /** A NULL pointer is dereferenced: unsubscribing in an empty trie, and past a hole of a dense node. */
  lemma UnsubscribeNull() returns (t: Tree, d: Bytes)
    ensures d != [] && Unsubscribe(Null, d) == NullRead
    ensures WF(t) && t.Node? && Unsubscribe(t, d) == NullRead
  {
    var n, c: Byte, rest: Bytes := SPARSE_MAX + 2, 1, [0];
    t, d := HoledNode(n), [c] + rest;
    HoledWF(n);
    HoleWalks(t, c, rest);
    UnsubscribeFault(t, d);
  }

  /** The data end at a hole: with ten children the node counts one too few from then on, with nine it overruns
      a sparse node. */
  lemma UnsubscribeHole() returns (t: Tree, u: Tree, d: Bytes)
    ensures WF(t) && Count(t, d) == 0 && Unsubscribe(t, d).Done? && Unsubscribe(t, d).code == 1
    ensures !WF(Unsubscribe(t, d).tree)
    ensures WF(u) && Count(u, d) == 0 && Unsubscribe(u, d) == Overflow
  {
    var n, m, c: Byte := SPARSE_MAX + 3, SPARSE_MAX + 2, 1;
    t, u, d := HoledNode(n), HoledNode(m), [c];
    HoledWF(n);
    HoledWF(m);
    HoleWalks(t, c, []);
    HoleWalks(u, c, []);
    UnsubscribeGap(t, d);
    UnsubscribeFault(u, d);
  }

  /** Unsubscribing the empty string, which is not subscribed, takes another string away. */
  lemma UnsubscribeRobs() returns (t: Tree, s: Bytes)
    ensures t == Subscribe(Null, s) && WF(t) && Robs(t, [])
    ensures Count(t, []) == 0 && Count(t, s) == 1 && Unsubscribe(t, []) == Done(1, Null)
  {
    t, s := Node(1, [0, 1], NO_KIDS), [0, 1];
  }

  /** A bare message: the match reads past its end, or lets it through for what lies behind. */
  lemma MatchMisled() returns (t: Tree, data: Bytes, behind: Bytes)
    ensures WF(t) && Bare(t, data) && !Subscribed(t, data)
    ensures Match(t, data, |data|) == Stray && Match(t, data + behind, |data|) == Hit
  {
    t, data, behind := Node(0, [0], Sparse([1, 2], Leaves(2))), [0], [1];
    BareStrays(t, data);
    BareNotSubscribed(t, data);
    assert (data + behind)[..1] == [0] && (data + behind)[1] == 1;
    assert PrefixInMemory([0], data + behind, 1) == Full;
  }
}
