/** Steps 2 and 3 of nn_trie_subscribe on one node: splitting a prefix and making room for a child. */
module TrieOpen {
  import opened Wire
  import opened TrieModel
  import opened TrieKids
  import opened TrieTheory
  import opened TrieShape
  import opened TrieNodes

  /** Lines 288-300: a new node takes the first pos bytes of the prefix, the old one stays below it. */
  method SplitNode(ch: TrieNode, pos: nat, ghost s: Shape, ghost t: Tree) returns (n: TrieNode, ghost s': Shape)
    requires Ptr(s) == ch && Rep(s, t) && Apart(s) && WFKids(t.kids) && pos < |t.prefix|
    modifies Objs(s)
    ensures Holds(n, s', Split(t, pos)) && fresh(Objs(s') - Objs(s))
  {
    n := new TrieNode(0, 1, ch.prefix[..pos], [ch.prefix[pos]], [null]);
    var ch', sub := Shorten(ch, pos, s, t);
    n.child := [ch'];
    s' := At(n, [sub], {n} + Objs(sub));
    OnlyChild(n, sub, Split(t, pos));
  }

  lemma OnlyChild(n: TrieNode, sub: Shape, t: Tree)
    requires Header(n, t) && |t.kids.subs| == 1 && n.child == [Ptr(sub)]
    requires Rep(sub, t.kids.subs[0]) && Apart(sub) && n !in Objs(sub)
    ensures Holds(n, At(n, [sub], {n} + Objs(sub)), t)
  {
    assert ApartAll([sub], n, {n} + Objs(sub));
  }

  /** A node that holds t', except that the slot for b contains NULL; w describes what surrounds the
      slot within the node.  (An equation, as for Holds.) */
  ghost predicate Opened(w: Ctx, node: TrieNode, t': Tree, b: Byte)
    reads if w.Under? then w.rest else {}
  {
    (w.Under? && w.up == Top && w.obj == node && w.t == t' && t'.Node? && w.i == Slot(t'.kids, b)
     && CtxFits(w) && CtxApart(w) && OwnerRep(w, null)) == true
  }

  /** Lines 311-318: one more character in a sparse node. */
  method OpenSparseNode(node: TrieNode, b: Byte, ghost s: Shape, ghost t: Tree) returns (index: nat, ghost w: Ctx)
    requires Ptr(s) == node && Rep(s, t) && Apart(s) && WFKids(t.kids) && Child(t.kids, b) == Null
    requires t.kids.Sparse? && |t.kids.chars| < SPARSE_MAX
    modifies node
    ensures Opened(w, node, OpenSlot(t, b), b) && CtxObjs(w) == Objs(s) && w.Under? && index == w.i
  {
    ghost var ts := t.kids.subs;
    assert ApartAll(s.subs, node, s.foot);
    assert forall j :: 0 <= j < |s.subs| ==> Rep(s.subs[j], ts[j]);
    node.chars := node.chars + [b];
    node.ntype := node.ntype + 1;
    node.child := node.child + [null];
    index := node.ntype - 1;
    w := Push(node, |ts|, s.subs + [Nil], OpenSlot(t, b), s.foot, Top);
    SparseOpened(w, node, b, s.subs, t);
  }

  lemma SparseOpened(w: Ctx, node: TrieNode, b: Byte, ss: seq<Shape>, t: Tree)
    requires t.Node? && WFKids(t.kids) && t.kids.Sparse? && |t.kids.chars| < SPARSE_MAX && Child(t.kids, b) == Null
    requires w.Under? && w == Under(node, |ss|, ss + [Nil], OpenSlot(t, b), w.rest, Top, w.rest)
    requires node in w.rest && Header(node, OpenSlot(t, b)) && ApartAll(ss, node, w.rest)
    requires |node.child| == |ss| + 1 && node.child[|ss|] == null
    requires |ss| == |t.kids.subs|
    requires forall j :: 0 <= j < |ss| ==> node.child[j] == Ptr(ss[j]) && Rep(ss[j], t.kids.subs[j])
    ensures Opened(w, node, OpenSlot(t, b), b)
  {
    FindAppend(t.kids.chars, b, b);
    assert w.i == Slot(w.t.kids, b) && CtxFits(w);
    assert forall j :: 0 <= j < |ss| ==> w.subs[j] == ss[j] && w.t.kids.subs[j] == t.kids.subs[j];
    assert CtxApart(w) && OwnerRep(w, null);
  }

  ghost function Nils(n: nat): (s: seq<Shape>)
    ensures |s| == n && forall i :: 0 <= i < n ==> s[i] == Nil
  {
    seq(n, _ => Nil)
  }

  function NullPointers(n: nat): (s: seq<TrieNode?>)
    ensures |s| == n && forall i :: 0 <= i < n ==> s[i] == null
  {
    seq(n, _ => null)
  }

  function Left(min: Byte, b: Byte): nat { if b < min then min - b else 0 }
  function Right(max: Byte, b: Byte): nat { if b > max then b - max else 0 }

  /** Lines 327-351: widen the range of a dense node so that it covers b. */
  method WidenNode(node: TrieNode, b: Byte)
    requires node.min <= node.max
    modifies node`min, node`max, node`child
    ensures node.min == Min(old(node.min), b) && node.max == Max(old(node.max), b)
    ensures node.child == NullPointers(Left(old(node.min), b)) + old(node.child)
                          + NullPointers(Right(old(node.max), b))
  {
    var newMin := if node.min < b then node.min else b;
    var newMax := if node.max > b then node.max else b;
    if b < node.min || b > node.max {
      if node.min != newMin {
        var inserted := node.min - newMin;
        node.child := NullPointers(inserted) + node.child;
      } else {
        node.child := node.child + NullPointers(newMax - node.max);
      }
      node.min := newMin;
      node.max := newMax;
    }
  }

  lemma WidenIs(k: Kids, b: Byte)
    requires WFKids(k) && k.Dense? && Child(k, b) == Null
    ensures var left, right := Left(k.min, b), Right(k.max, b);
            && Widen(k, b).subs == Nulls(left) + k.subs + Nulls(right)
            && 0 <= Slot(Widen(k, b), b) < left + |k.subs| + right
            && (left <= Slot(Widen(k, b), b) < left + |k.subs| ==> k.subs[Slot(Widen(k, b), b) - left] == Null)
  {
    assert Nulls(0) + k.subs == k.subs && k.subs + Nulls(0) == k.subs;
  }

  /** The array of children of a node, its old part being described by ss and ts, with NULLs on both
      sides; u is what the node holds, and the open slot i is among the NULLs. */
  ghost predicate Padded(node: TrieNode, i: nat, ss: seq<Shape>, ts: seq<Tree>, u: Tree, left: nat, right: nat)
    reads node
  {
    && |ss| == |ts| && |node.child| == left + |ss| + right
    && (forall j :: 0 <= j < |ss| ==> node.child[left + j] == Ptr(ss[j]))
    && (forall j :: 0 <= j < left || left + |ss| <= j < |node.child| ==> node.child[j] == null)
    && Header(node, u) && u.kids.subs == Nulls(left) + ts + Nulls(right)
    && i < left + |ss| + right && (left <= i < left + |ss| ==> ts[i - left] == Null)
  }

  /** Lines 326-353. */
  method GrowNode(node: TrieNode, b: Byte, ghost ss: seq<Shape>, ghost t: Tree) returns (index: nat)
    requires Header(node, t) && WFKids(t.kids) && Child(t.kids, b) == Null && t.kids.Dense?
    requires |ss| == |node.child| == |t.kids.subs| && forall j :: 0 <= j < |ss| ==> node.child[j] == Ptr(ss[j])
    modifies node
    ensures index == Slot(OpenSlot(t, b).kids, b)
    ensures Padded(node, index, ss, t.kids.subs, OpenSlot(t, b), Left(t.kids.min, b), Right(t.kids.max, b))
  {
    WidenIs(t.kids, b);
    WidenNode(node, b);
    node.nbr := node.nbr + 1;
    index := b - node.min;
    GrownPadded(node, index, b, ss, t);
  }

  lemma GrownPadded(node: TrieNode, i: nat, b: Byte, ss: seq<Shape>, t: Tree)
    requires t.Node? && WFKids(t.kids) && Child(t.kids, b) == Null && t.kids.Dense? && |ss| == |t.kids.subs|
    requires Header(node, OpenSlot(t, b)) && i == Slot(OpenSlot(t, b).kids, b)
    requires var left, right := Left(t.kids.min, b), Right(t.kids.max, b);
             && |node.child| == left + |ss| + right
             && (forall j :: 0 <= j < |ss| ==> node.child[left + j] == Ptr(ss[j]))
             && (forall j :: 0 <= j < left || left + |ss| <= j < |node.child| ==> node.child[j] == null)
    ensures Padded(node, i, ss, t.kids.subs, OpenSlot(t, b), Left(t.kids.min, b), Right(t.kids.max, b))
  {
    WidenIs(t.kids, b);
  }

  /** The subtrees are where they were. */
  method GrowAround(node: TrieNode, b: Byte, ghost ss: seq<Shape>, ghost t: Tree) returns (index: nat)
    requires Header(node, t) && WFKids(t.kids) && Child(t.kids, b) == Null && t.kids.Dense?
    requires |ss| == |node.child| == |t.kids.subs|
    requires forall j :: 0 <= j < |ss| ==>
               node.child[j] == Ptr(ss[j]) && Rep(ss[j], t.kids.subs[j]) && node !in Objs(ss[j])
    modifies node
    ensures index == Slot(OpenSlot(t, b).kids, b)
    ensures Padded(node, index, ss, t.kids.subs, OpenSlot(t, b), Left(t.kids.min, b), Right(t.kids.max, b))
    ensures forall j :: 0 <= j < |ss| ==> Rep(ss[j], t.kids.subs[j])
  {
    index := GrowNode(node, b, ss, t);
  }

  /** The node with its padded array is opened for b, as part of the context of that slot. */
  lemma DenseContext(node: TrieNode, i: nat, b: Byte, ss: seq<Shape>, foot: set<TrieNode>, ts: seq<Tree>, u: Tree,
                     left: nat, right: nat)
    returns (w: Ctx)
    requires Padded(node, i, ss, ts, u, left, right) && i == Slot(u.kids, b)
    requires node in foot && ApartAll(ss, node, foot) && forall j :: 0 <= j < |ss| ==> Rep(ss[j], ts[j])
    ensures Opened(w, node, u, b) && CtxObjs(w) == foot && w.Under? && i == w.i
  {
    w := Under(node, i, Nils(left) + ss + Nils(right), u, foot, Top, foot);
    DenseOpened(w, node, b, ss, ts, u, left, right);
  }

  /** Lines 326-354. */
  method OpenDenseNode(node: TrieNode, b: Byte, ghost s: Shape, ghost t: Tree) returns (index: nat, ghost w: Ctx)
    requires Ptr(s) == node && Rep(s, t) && Apart(s) && WFKids(t.kids) && Child(t.kids, b) == Null
    requires t.kids.Dense?
    modifies node
    ensures Opened(w, node, OpenSlot(t, b), b) && CtxObjs(w) == Objs(s) && w.Under? && index == w.i
  {
    assert ApartAll(s.subs, node, s.foot);
    assert forall j :: 0 <= j < |s.subs| ==> Rep(s.subs[j], t.kids.subs[j]) && node !in Objs(s.subs[j]);
    index := GrowAround(node, b, s.subs, t);
    w := DenseContext(node, index, b, s.subs, s.foot, t.kids.subs, OpenSlot(t, b),
                      Left(t.kids.min, b), Right(t.kids.max, b));
  }

  lemma DenseOpened(w: Ctx, node: TrieNode, b: Byte, ss: seq<Shape>, ts: seq<Tree>, u: Tree, left: nat, right: nat)
    requires w.Under? && Padded(node, w.i, ss, ts, u, left, right) && w.i == Slot(u.kids, b)
    requires w == Under(node, w.i, Nils(left) + ss + Nils(right), u, w.rest, Top, w.rest)
    requires node in w.rest && ApartAll(ss, node, w.rest)
    requires forall j :: 0 <= j < |ss| ==> Rep(ss[j], ts[j])
    ensures Opened(w, node, u, b)
  {
    PaddedRep(w, ss, ts, left, right);
  }

  /** j is a place of the padded array, and ss and ts describe what is there. */
  lemma PaddedAt(w: Ctx, ss: seq<Shape>, ts: seq<Tree>, left: nat, right: nat, j: nat)
    requires w.Under? && w.t.Node? && j < |w.subs|
    requires |ss| == |ts| && w.subs == Nils(left) + ss + Nils(right)
    requires w.t.kids.subs == Nulls(left) + ts + Nulls(right)
    ensures |w.t.kids.subs| == |w.subs|
    ensures if left <= j < left + |ss| then w.subs[j] == ss[j - left] && w.t.kids.subs[j] == ts[j - left]
            else w.subs[j] == Nil && w.t.kids.subs[j] == Null
  {
  }

  lemma PaddedRep(w: Ctx, ss: seq<Shape>, ts: seq<Tree>, left: nat, right: nat)
    requires w.Under? && w.up == Top && w.around == w.rest && w.obj in w.rest && Header(w.obj, w.t)
    requires |ss| == |ts| && w.subs == Nils(left) + ss + Nils(right)
    requires w.t.kids.subs == Nulls(left) + ts + Nulls(right) && w.i < |w.subs|
    requires ApartAll(ss, w.obj, w.rest)
    requires |w.obj.child| == |w.subs|
    requires forall j :: 0 <= j < |ss| ==> w.obj.child[left + j] == Ptr(ss[j]) && Rep(ss[j], ts[j])
    requires forall j :: 0 <= j < left || left + |ss| <= j < |w.subs| ==> w.obj.child[j] == null
    requires left <= w.i < left + |ss| ==> ts[w.i - left] == Null
    ensures CtxFits(w) && CtxApart(w) && OwnerRep(w, null)
  {
    PaddedApart(w, ss, ts, left, right);
    forall j | 0 <= j < |w.subs|
      ensures w.obj.child[j] == Ptr(w.subs[j]) && Rep(w.subs[j], w.t.kids.subs[j])
    {
      PaddedAt(w, ss, ts, left, right, j);
      if left <= j < left + |ss| { assert w.obj.child[left + (j - left)] == Ptr(ss[j - left]); }
    }
    PaddedAt(w, ss, ts, left, right, w.i);
  }

  lemma PaddedApart(w: Ctx, ss: seq<Shape>, ts: seq<Tree>, left: nat, right: nat)
    requires w.Under? && w.up == Top && w.around == w.rest && w.obj in w.rest && w.t.Node?
    requires |ss| == |ts| && w.subs == Nils(left) + ss + Nils(right)
    requires w.t.kids.subs == Nulls(left) + ts + Nulls(right) && w.i < |w.subs|
    requires ApartAll(ss, w.obj, w.rest)
    ensures CtxFits(w) && CtxApart(w)
    ensures forall j :: 0 <= j < |w.subs| ==> Objs(w.subs[j]) <= w.rest
  {
    forall j | 0 <= j < |w.subs|
      ensures w.subs[j] == if left <= j < left + |ss| then ss[j - left] else Nil
    {
      PaddedAt(w, ss, ts, left, right, j);
    }
  }

  // ---------------------------------------------------------------- full sparse to dense

  ghost function ScatterShapes(chars: Bytes, ss: seq<Shape>, lo: Byte, size: nat, n: nat): (r: seq<Shape>)
    requires n <= |chars| == |ss|
    requires forall i :: 0 <= i < |chars| ==> lo <= chars[i] < lo + size
    ensures |r| == size
  {
    if n == 0 then Nils(size)
    else ScatterShapes(chars, ss, lo, size, n - 1)[chars[n - 1] - lo := ss[n - 1]]
  }

  lemma {:induction false} ScatterShapeAt(chars: Bytes, ss: seq<Shape>, lo: Byte, size: nat, n: nat, x: Byte)
    requires n <= |chars| == |ss| && Distinct(chars) && lo <= x < lo + size
    requires forall i :: 0 <= i < |chars| ==> lo <= chars[i] < lo + size
    ensures ScatterShapes(chars, ss, lo, size, n)[x - lo] == if Find(chars, x) < n then ss[Find(chars, x)] else Nil
  {
    if n > 0 {
      ScatterShapeAt(chars, ss, lo, size, n - 1, x);
      FindIs(chars, n - 1);
    }
  }

  lemma {:induction false} MinOfStart(s: Bytes, c: Byte, i: nat)
    requires i <= |s|
    ensures Min(MinOf(s[..i], 255), c) == MinOf(s[..i], c)
    ensures Max(MaxOf(s[..i], 0), c) == MaxOf(s[..i], c)
  {
    if i > 0 {
      assert s[..i][..i - 1] == s[..i - 1];
      MinOfStart(s, c, i - 1);
    }
  }

  /** Lines 363-372: the range that covers all children and b. */
  method Range(node: TrieNode, b: Byte) returns (newMin: Byte, newMax: Byte)
    requires node.ntype == |node.chars|
    ensures newMin == MinOf(node.chars, b) && newMax == MaxOf(node.chars, b)
  {
    newMin, newMax := 255, 0;
    var i := 0;
    while i != node.ntype
      invariant 0 <= i <= node.ntype
      invariant newMin == MinOf(node.chars[..i], 255) && newMax == MaxOf(node.chars[..i], 0)
    {
      assert node.chars[..i + 1][..i] == node.chars[..i];
      var c2 := node.chars[i];
      newMin := if newMin < c2 then newMin else c2;
      newMax := if newMax > c2 then newMax else c2;
      i := i + 1;
    }
    MinOfStart(node.chars, b, i);
    assert node.chars[..i] == node.chars;
    newMin := if newMin < b then newMin else b;
    newMax := if newMax > b then newMax else b;
  }

  /** Lines 389-393: the children of the old node at their places in the dense array. */
  method Fill(node: TrieNode, lo: Byte, size: nat, ghost ss: seq<Shape>) returns (child: seq<TrieNode?>)
    requires node.ntype == |node.chars| == |node.child| == |ss|
    requires forall i :: 0 <= i < |node.chars| ==> lo <= node.chars[i] < lo + size
    requires forall j :: 0 <= j < |ss| ==> node.child[j] == Ptr(ss[j])
    ensures |child| == size
    ensures forall j :: 0 <= j < size ==> child[j] == Ptr(ScatterShapes(node.chars, ss, lo, size, |ss|)[j])
  {
    child := NullPointers(size);
    var i := 0;
    while i != node.ntype
      invariant 0 <= i <= node.ntype && |child| == size
      invariant forall j :: 0 <= j < size ==> child[j] == Ptr(ScatterShapes(node.chars, ss, lo, size, i)[j])
    {
      child := child[node.chars[i] - lo := node.child[i]];
      i := i + 1;
    }
  }

  method MakeDense(node: TrieNode, lo: Byte, hi: Byte, ghost ss: seq<Shape>) returns (r: TrieNode)
    requires node.ntype == |node.chars| == |node.child| == |ss| && lo <= hi
    requires forall i :: 0 <= i < |node.chars| ==> lo <= node.chars[i] <= hi
    requires forall j :: 0 <= j < |ss| ==> node.child[j] == Ptr(ss[j])
    ensures fresh(r) && r.refcount == 0 && r.ntype == DENSE_TYPE && r.prefix == node.prefix
    ensures r.min == lo && r.max == hi && r.nbr == node.ntype + 1 && |r.child| == hi - lo + 1
    ensures forall j :: 0 <= j < |r.child| ==>
              r.child[j] == Ptr(ScatterShapes(node.chars, ss, lo, hi - lo + 1, |ss|)[j])
  {
    var size: int := hi - lo + 1;
    var child := Fill(node, lo, size, ss);
    r := new TrieNode(0, DENSE_TYPE, node.prefix, [], child);
    r.min, r.max, r.nbr := lo, hi, node.ntype + 1;
  }

  /** Lines 362-399: a new dense node in place of a full sparse one.  Its refcount is 0. */
  method OpenFullNode(node: TrieNode, b: Byte, ghost s: Shape, ghost t: Tree)
    returns (r: TrieNode, index: nat, ghost w: Ctx)
    requires Ptr(s) == node && Rep(s, t) && Apart(s) && WFKids(t.kids) && Child(t.kids, b) == Null
    requires t.kids.Sparse? && |t.kids.chars| == SPARSE_MAX
    ensures fresh(r) && Opened(w, r, OpenSlot(t, b), b) && index == w.i && CtxObjs(w) == Objs(s) + {r}
  {
    ghost var ss := s.subs;
    assert ApartAll(ss, node, s.foot);
    assert forall j :: 0 <= j < |ss| ==> Rep(ss[j], t.kids.subs[j]);
    var newMin, newMax := Range(node, b);
    ghost var size := newMax as int - newMin as int + 1;
    r := MakeDense(node, newMin, newMax, ss);
    w := Push(r, b - newMin, ScatterShapes(node.chars, ss, newMin, size, |ss|), OpenSlot(t, b), s.foot + {r}, Top);
    ScatterRep(w, node, s, t, b);
    index := b - r.min;
  }

  lemma ScatterRep(w: Ctx, node: TrieNode, s: Shape, t: Tree, b: Byte)
    requires s.At? && ApartAll(s.subs, s.obj, s.foot) && t.Node? && WFKids(t.kids) && Child(t.kids, b) == Null
    requires t.kids.Sparse? && |t.kids.chars| == SPARSE_MAX == |s.subs|
    requires forall j :: 0 <= j < |s.subs| ==> Rep(s.subs[j], t.kids.subs[j])
    requires w.Under? && w.up == Top && w.around == w.rest == s.foot + {w.obj} && w.obj !in s.foot
    requires w.t == OpenSlot(t, b) && w.i == b - w.t.kids.min && Header(w.obj, w.t)
    requires var k := w.t.kids; w.subs == ScatterShapes(t.kids.chars, s.subs, k.min, k.max - k.min + 1, |s.subs|)
    requires |w.obj.child| == |w.subs| && forall j :: 0 <= j < |w.subs| ==> w.obj.child[j] == Ptr(w.subs[j])
    ensures CtxFits(w) && CtxApart(w) && OwnerRep(w, null)
  {
    var k, chars := w.t.kids, t.kids.chars;
    ScatterApart(w, s, t, b);
    forall j | 0 <= j < |w.subs| ensures Rep(w.subs[j], k.subs[j]) {
      ScatterChild(chars, s.subs, t.kids.subs, k.min, k.max - k.min + 1, j);
    }
    ScatterShapeAt(chars, s.subs, k.min, k.max - k.min + 1, |s.subs|, b);
    assert Find(chars, b) == |chars|;
  }

  lemma ScatterChild(chars: Bytes, ss: seq<Shape>, ts: seq<Tree>, lo: Byte, size: nat, j: nat)
    requires |chars| == |ss| == |ts| && Distinct(chars) && j < size && lo + j < 256
    requires forall i :: 0 <= i < |chars| ==> lo <= chars[i] < lo + size
    requires forall i :: 0 <= i < |ss| ==> Rep(ss[i], ts[i])
    ensures Rep(ScatterShapes(chars, ss, lo, size, |ss|)[j], Scatter(chars, ts, lo, size, |ts|)[j])
  {
    ScatterShapeAt(chars, ss, lo, size, |ss|, lo + j);
    ScatterAt(chars, ts, lo, size, |ts|, lo + j);
  }

  lemma ScatterApart(w: Ctx, s: Shape, t: Tree, b: Byte)
    requires s.At? && ApartAll(s.subs, s.obj, s.foot) && t.Node? && WFKids(t.kids) && Child(t.kids, b) == Null
    requires t.kids.Sparse? && |t.kids.chars| == SPARSE_MAX == |s.subs|
    requires w.Under? && w.up == Top && w.around == w.rest == s.foot + {w.obj} && w.obj !in s.foot
    requires w.t == OpenSlot(t, b) && w.i == b - w.t.kids.min
    requires var k := w.t.kids; w.subs == ScatterShapes(t.kids.chars, s.subs, k.min, k.max - k.min + 1, |s.subs|)
    ensures CtxFits(w) && CtxApart(w)
    ensures forall j :: 0 <= j < |w.subs| ==> Objs(w.subs[j]) <= w.rest
  {
    ScatterIs(w, s, t, b);
    var k, chars := w.t.kids, t.kids.chars;
    forall i, j | 0 <= i < j < |w.subs| ensures Objs(w.subs[i]) !! Objs(w.subs[j]) {
      assert Find(chars, k.min + i) == Find(chars, k.min + j) ==> Find(chars, k.min + i) == |chars|;
    }
  }

  /** Where the subtrees have gone. */
  lemma ScatterIs(w: Ctx, s: Shape, t: Tree, b: Byte)
    requires s.At? && t.Node? && WFKids(t.kids) && Child(t.kids, b) == Null
    requires t.kids.Sparse? && |t.kids.chars| == SPARSE_MAX == |s.subs|
    requires w.Under? && w.t == OpenSlot(t, b)
    requires var k := w.t.kids; w.subs == ScatterShapes(t.kids.chars, s.subs, k.min, k.max - k.min + 1, |s.subs|)
    ensures |w.subs| == w.t.kids.max - w.t.kids.min + 1
    ensures forall j :: 0 <= j < |w.subs| ==>
              w.subs[j] == if Find(t.kids.chars, w.t.kids.min + j) < |t.kids.chars|
                           then s.subs[Find(t.kids.chars, w.t.kids.min + j)] else Nil
  {
    var k := w.t.kids;
    ScatterPlaces(t.kids.chars, s.subs, k.min, k.max - k.min + 1);
  }

  lemma ScatterPlaces(chars: Bytes, ss: seq<Shape>, lo: Byte, size: nat)
    requires |chars| == |ss| && Distinct(chars) && lo + size <= 256
    requires forall i :: 0 <= i < |chars| ==> lo <= chars[i] < lo + size
    ensures |ScatterShapes(chars, ss, lo, size, |ss|)| == size
    ensures forall j :: 0 <= j < size ==>
              ScatterShapes(chars, ss, lo, size, |ss|)[j] ==
              if Find(chars, lo + j) < |chars| then ss[Find(chars, lo + j)] else Nil
  {
    forall j | 0 <= j < size
      ensures ScatterShapes(chars, ss, lo, size, |ss|)[j] ==
              if Find(chars, lo + j) < |chars| then ss[Find(chars, lo + j)] else Nil
    {
      ScatterShapeAt(chars, ss, lo, size, |ss|, lo + j);
    }
  }
}
