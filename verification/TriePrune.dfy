/** nn_node_unsubscribe, in place. */
module TriePrune {
  import opened Wire
  import opened TrieModel
  import opened TrieKids
  import opened TrieTheory
  import opened TrieShape
  import opened TrieNodes

  /** s holds t, except that the child for c, if there was one, is already gone. */
  ghost predicate Holed(s: Shape, t: Tree, c: Byte)
    reads Objs(s)
  {
    && s.At? && Prunable(t, c)
    && Apart(s)
    && Rep(s, t.(kids := SetSub(t.kids, Slot(t.kids, c), Null)))
  }

  /** Lines 522-526: the index of the removed child. */
  method IndexOf(node: TrieNode, c: Byte, ghost t: Tree) returns (index: nat)
    requires Header(node, t) && t.kids.Sparse? && Find(t.kids.chars, c) < |t.kids.chars|
    ensures index == Find(t.kids.chars, c)
  {
    index := 0;
    while index != node.ntype
      invariant 0 <= index <= node.ntype
      invariant forall j :: 0 <= j < index ==> node.chars[j] != c
    {
      if node.chars[index] == c {
        break;
      }
      index := index + 1;
    }
    FindFirst(node.chars, c, index);
  }

  /** Lines 528-540: close the gap in both arrays. */
  method RemoveChild(node: TrieNode, index: nat, ghost ss: seq<Shape>, ghost t: Tree)
    requires Header(node, t) && t.kids.Sparse? && index < |ss| == |t.kids.chars| == |node.child|
    requires forall j :: 0 <= j < |ss| ==> node.child[j] == Ptr(ss[j])
    modifies node
    ensures Header(node, t.(kids := Sparse(RemoveAt(t.kids.chars, index), [])))
    ensures |node.child| == |ss| - 1
    ensures forall j :: 0 <= j < |ss| - 1 ==> node.child[j] == Ptr(ss[if j < index then j else j + 1])
  {
    node.chars := node.chars[..index] + node.chars[index + 1..];
    node.child := node.child[..index] + node.child[index + 1..];
    node.ntype := node.ntype - 1;
  }

  function Without(k: Kids, c: Byte): Kids
    requires WFKids(k) && k.Sparse? && !Child(k, c).Null?
  {
    Sparse(RemoveAt(k.chars, Find(k.chars, c)), RemoveAt(k.subs, Find(k.chars, c)))
  }

  lemma HoledFacts(s: Shape, t: Tree, c: Byte)
    requires Holed(s, t, c)
    ensures var i := Slot(t.kids, c);
            && 0 <= i < |s.subs| == |t.kids.subs| == |s.obj.child|
            && Header(s.obj, t.(kids := SetSub(t.kids, i, Null)))
            && (forall j :: 0 <= j < |s.subs| ==> s.obj.child[j] == Ptr(s.subs[j]) && s.obj !in Objs(s.subs[j]))
            && (forall j :: 0 <= j < |s.subs| && j != i ==> Rep(s.subs[j], t.kids.subs[j]))
            && s.subs[i] == Nil
    ensures ApartAll(s.subs, s.obj, s.foot)
  {
    var u := t.(kids := SetSub(t.kids, Slot(t.kids, c), Null));
    assert ApartAll(s.subs, s.obj, s.foot);
    assert forall j :: 0 <= j < |s.subs| ==> Rep(s.subs[j], u.kids.subs[j]);
  }

  method CutChild(node: TrieNode, c: Byte, ghost s: Shape, ghost t: Tree) returns (ghost s': Shape)
    requires Ptr(s) == node && Holed(s, t, c) && t.kids.Sparse?
    modifies node
    ensures Holds(node, s', t.(kids := Without(t.kids, c))) && Objs(s') <= Objs(s)
  {
    ghost var u := t.(kids := SetSub(t.kids, Slot(t.kids, c), Null));
    HoledFacts(s, t, c);
    var index := IndexOf(node, c, u);
    RemoveChild(node, index, s.subs, u);
    s' := At(node, RemoveAt(s.subs, index), s.foot);
    RemoveShape(s.subs, index, node, s.foot);
    RemovedRep(node, s.subs, s.foot, t, Without(t.kids, c), index);
  }

  /** Lines 520-554. */
  method PruneSparseNode(node: TrieNode, c: Byte, ghost s: Shape, ghost t: Tree)
    returns (r: TrieNode?, ghost s': Shape)
    requires Ptr(s) == node && Holed(s, t, c) && t.kids.Sparse? && WF(t)
    modifies Objs(s)
    ensures Holds(r, s', Prune(t, c)) && Objs(s') <= Objs(s)
  {
    PruneSparse(t, c);
    s' := CutChild(node, c, s, t);
    if node.ntype == 0 && node.refcount == 0 {
      r, s' := null, Nil;
      return;
    }
    r, s' := CompactNode(node, s', t.(kids := Without(t.kids, c)));
  }

  lemma RemoveShape(ss: seq<Shape>, i: nat, o: TrieNode, foot: set<TrieNode>)
    requires i < |ss| && ApartAll(ss, o, foot)
    ensures ApartAll(RemoveAt(ss, i), o, foot)
  {
    RemoveAtIndex(ss, i);
  }

  lemma RemovedRep(o: TrieNode, ss: seq<Shape>, foot: set<TrieNode>, t: Tree, k: Kids, i: nat)
    requires t.Node? && k.Sparse? && i < |ss| == |t.kids.subs| && k.subs == RemoveAt(t.kids.subs, i)
    requires o in foot && Header(o, t.(kids := k)) && |o.child| == |ss| - 1
    requires forall j :: 0 <= j < |ss| && j != i ==> Objs(ss[j]) <= foot && Rep(ss[j], t.kids.subs[j])
    requires forall j :: 0 <= j < |ss| - 1 ==> o.child[j] == Ptr(ss[if j < i then j else j + 1])
    ensures Rep(At(o, RemoveAt(ss, i), foot), t.(kids := k))
  {
    RemoveAtIndex(ss, i);
    RemoveAtIndex(t.kids.subs, i);
  }

  // ---------------------------------------------------------------- dense nodes

  lemma NullPtr(s: Shape, t: Tree)
    requires Rep(s, t)
    ensures Ptr(s) == null <==> t.Null?
  {
  }

  lemma FirstIs(s: seq<Tree>, i: nat)
    requires i <= |s| && (forall j :: 0 <= j < i ==> s[j].Null?) && (i < |s| ==> !s[i].Null?)
    ensures FirstNode(s) == i
  {
  }

  lemma LastIs(s: seq<Tree>, i: nat)
    requires i < |s| && (forall j :: i < j < |s| ==> s[j].Null?) && (i == 0 || !s[i].Null?)
    ensures LastNode(s) == i
  {
  }

  /** A node whose child array is the part a..b of the array that ss and ts describe. */
  lemma SliceRep(o: TrieNode, ss: seq<Shape>, foot: set<TrieNode>, ts: seq<Tree>, t: Tree, a: nat, b: nat)
    requires t.Node? && a <= b <= |ss| == |ts| && t.kids.subs == ts[a..b]
    requires o in foot && Header(o, t) && |o.child| == b - a
    requires forall j :: a <= j < b ==>
               o.child[j - a] == Ptr(ss[j]) && Objs(ss[j]) <= foot && Rep(ss[j], ts[j])
    requires ApartAll(ss, o, foot)
    ensures Rep(At(o, ss[a..b], foot), t) && Apart(At(o, ss[a..b], foot))
  {
  }

  /** Keep the slots a..b of a dense node that has just lost a child. */
  method Narrow(node: TrieNode, a: nat, b: nat, ghost s: Shape, ghost t: Tree) returns (ghost s': Shape)
    requires Holds(node, s, t) && t.kids.Dense? && t.kids.nbr > 0
    requires a < b <= |t.kids.subs| && |t.kids.subs| == t.kids.max - t.kids.min + 1
    modifies node
    ensures Holds(node, s', t.(kids := Dense(t.kids.min + a, t.kids.min + b - 1, t.kids.nbr - 1, t.kids.subs[a..b])))
    ensures Objs(s') <= Objs(s)
  {
    assert ApartAll(s.subs, node, s.foot);
    assert forall j :: 0 <= j < |s.subs| ==> Rep(s.subs[j], t.kids.subs[j]);
    node.child := node.child[a..b];
    node.max := node.min + b - 1;
    node.min := node.min + a;
    node.nbr := node.nbr - 1;
    s' := At(node, s.subs[a..b], s.foot);
    SliceRep(node, s.subs, s.foot, t.kids.subs,
             t.(kids := Dense(t.kids.min + a, t.kids.min + b - 1, t.kids.nbr - 1, t.kids.subs[a..b])), a, b);
  }

  /** Lines 564-599. */
  method TrimNode(node: TrieNode, c: Byte, ghost s: Shape, ghost t: Tree) returns (ghost s': Shape)
    requires Ptr(s) == node && Holed(s, t, c) && t.kids.Dense? && t.kids.nbr > SPARSE_MAX + 1
    modifies node
    ensures Holds(node, s', t.(kids := Trim(t.kids, c))) && Objs(s') <= Objs(s)
  {
    ghost var cut := t.kids.subs[c - t.kids.min := Null];
    ghost var u := t.(kids := SetSub(t.kids, Slot(t.kids, c), Null));
    HoledCut(s, t, c);
    var a, b := TrimRange(node, c, s.subs, t.kids, cut);
    TrimIs(t.kids, c, cut, a, b);
    TrimNodeIs(t, c, cut, u, a, b);
    s' := Narrow(node, a, b, s, u);
  }

  lemma HoledCut(s: Shape, t: Tree, c: Byte)
    requires Holed(s, t, c) && t.kids.Dense? && t.kids.nbr > SPARSE_MAX + 1
    ensures var cut, i := t.kids.subs[c - t.kids.min := Null], Slot(t.kids, c);
            && i == c - t.kids.min && SetSub(t.kids, i, Null).subs == cut
            && Holds(s.obj, s, t.(kids := SetSub(t.kids, i, Null)))
            && s.obj.min == t.kids.min && s.obj.max == t.kids.max
            && |s.subs| == |cut| == |s.obj.child| && NonNull(cut) > 0
            && forall j :: 0 <= j < |s.subs| ==> s.obj.child[j] == Ptr(s.subs[j]) && Rep(s.subs[j], cut[j])
  {
    HoledFacts(s, t, c);
    NonNullUpdate(t.kids.subs, c - t.kids.min, Null);
  }

  /** Lines 569-594: the slots that stay. */
  method TrimRange(node: TrieNode, c: Byte, ghost ss: seq<Shape>, ghost k: Kids, ghost cut: seq<Tree>)
    returns (a: nat, b: nat)
    requires k.Dense? && node.min == k.min && node.max == k.max && |ss| == |cut| == |node.child| && NonNull(cut) > 0
    requires forall j :: 0 <= j < |ss| ==> node.child[j] == Ptr(ss[j]) && Rep(ss[j], cut[j])
    ensures a < b <= |cut|
    ensures a == if c == k.min then FirstNode(cut) else 0
    ensures b == if c == k.max && c != k.min then LastNode(cut) + 1 else |cut|
  {
    a, b := 0, |node.child|;
    if c == node.min {
      a := FirstChild(node, ss, cut);
      TrimLeft(cut);
    } else if c == node.max {
      var i := LastChild(node, ss, cut);
      b := i + 1;
    }
  }

  lemma TrimIs(k: Kids, c: Byte, cut: seq<Tree>, a: nat, b: nat)
    requires k.Dense? && k.nbr > 0 && k.min <= c <= k.max && |k.subs| == k.max - k.min + 1
    requires cut == k.subs[c - k.min := Null] && a < b <= |cut|
    requires a == if c == k.min then FirstNode(cut) else 0
    requires b == if c == k.max && c != k.min then LastNode(cut) + 1 else |cut|
    ensures TrimmedTo(k, c, a, cut[a..b])
  {
    if c == k.min {
      TrimFirst(k, c, cut);
      assert cut[a..b] == cut[a..];
    } else if c == k.max {
      TrimLast(k, c, cut);
      assert cut[a..b] == cut[..b];
    } else {
      TrimMiddle(k, c, cut);
      assert cut[a..b] == cut;
    }
  }

  lemma TrimNodeIs(t: Tree, c: Byte, cut: seq<Tree>, u: Tree, a: nat, b: nat)
    requires t.Node? && t.kids.Dense? && t.kids.nbr > 0 && t.kids.min <= c <= t.kids.max && a < b <= |cut|
    requires |cut| == t.kids.max - t.kids.min + 1 == |t.kids.subs| && TrimmedTo(t.kids, c, a, cut[a..b])
    requires u == t.(kids := Dense(t.kids.min, t.kids.max, t.kids.nbr, cut))
    ensures t.(kids := Trim(t.kids, c)) ==
            u.(kids := Dense(u.kids.min + a, u.kids.min + b - 1, u.kids.nbr - 1, u.kids.subs[a..b]))
  {
  }

  method FirstChild(node: TrieNode, ghost ss: seq<Shape>, ghost ts: seq<Tree>) returns (i: nat)
    requires |ss| == |ts| == |node.child|
    requires forall j :: 0 <= j < |ss| ==> node.child[j] == Ptr(ss[j]) && Rep(ss[j], ts[j])
    ensures i == FirstNode(ts)
  {
    i := 0;
    while i != |node.child|
      invariant i <= |node.child|
      invariant forall j :: 0 <= j < i ==> ts[j].Null?
    {
      NullPtr(ss[i], ts[i]);
      if node.child[i] != null {
        break;
      }
      i := i + 1;
    }
    FirstIs(ts, i);
  }

  method LastChild(node: TrieNode, ghost ss: seq<Shape>, ghost ts: seq<Tree>) returns (i: nat)
    requires 0 < |ss| == |ts| == |node.child|
    requires forall j :: 0 <= j < |ss| ==> node.child[j] == Ptr(ss[j]) && Rep(ss[j], ts[j])
    ensures i == LastNode(ts)
  {
    i := |node.child| - 1;
    while i != 0
      invariant i < |node.child|
      invariant forall j :: i < j < |ts| ==> ts[j].Null?
    {
      NullPtr(ss[i], ts[i]);
      if node.child[i] != null {
        break;
      }
      i := i - 1;
    }
    LastIs(ts, i);
  }

  // ---------------------------------------------------------------- dense to sparse

  ghost function PackShapes(ss: seq<Shape>): seq<Shape> {
    if ss == [] then []
    else PackShapes(ss[..|ss| - 1]) + (if ss[|ss| - 1].Nil? then [] else [ss[|ss| - 1]])
  }

  lemma {:induction false} PackRep(ss: seq<Shape>, ts: seq<Tree>, n: nat)
    requires n <= |ss| == |ts| && forall j :: 0 <= j < |ss| ==> Rep(ss[j], ts[j])
    ensures |PackShapes(ss[..n])| == |PackSubs(ts[..n])|
    ensures forall j :: 0 <= j < |PackShapes(ss[..n])| ==> Rep(PackShapes(ss[..n])[j], PackSubs(ts[..n])[j])
  {
    if n > 0 {
      PackRep(ss, ts, n - 1);
      assert ss[..n][..n - 1] == ss[..n - 1] && ts[..n][..n - 1] == ts[..n - 1];
      NullPtr(ss[n - 1], ts[n - 1]);
    }
  }

  lemma {:induction false} PackApart(ss: seq<Shape>, n: nat, o: TrieNode, foot: set<TrieNode>, o': TrieNode)
    requires n <= |ss| && ApartAll(ss, o, foot) && o' !in foot
    ensures ApartAll(PackShapes(ss[..n]), o', foot + {o'})
    ensures forall j :: 0 <= j < |PackShapes(ss[..n])| ==> exists i :: 0 <= i < n && PackShapes(ss[..n])[j] == ss[i]
  {
    if n > 0 {
      PackApart(ss, n - 1, o, foot, o');
      assert ss[..n][..n - 1] == ss[..n - 1];
      var p := PackShapes(ss[..n - 1]);
      forall j | 0 <= j < |p| ensures Objs(p[j]) !! Objs(ss[n - 1]) {
        var i :| 0 <= i < n - 1 && p[j] == ss[i];
      }
    }
  }

  /** Lines 603-625. */
  method ToSparse(node: TrieNode, ghost s: Shape, ghost t: Tree) returns (r: TrieNode, ghost s': Shape)
    requires Holds(node, s, t) && t.kids.Dense?
    requires |t.kids.subs| == t.kids.max - t.kids.min + 1 && NonNull(t.kids.subs) == SPARSE_MAX
    ensures fresh(r) && Objs(s') == Objs(s) + {r}
    ensures Holds(r, s', Node(0, t.prefix, Sparse(PackChars(t.kids.min, t.kids.subs), PackSubs(t.kids.subs))))
  {
    ghost var ss, ts := s.subs, t.kids.subs;
    assert ApartAll(ss, node, s.foot);
    assert forall j :: 0 <= j < |ss| ==> Rep(ss[j], ts[j]);
    var n := node.max - node.min + 1;
    var chars, child := PackSlots(node, n, ss, ts);
    assert ts[..n] == ts && ss[..n] == ss;
    r := new TrieNode(0, SPARSE_MAX, node.prefix, chars, child);
    s' := At(r, PackShapes(ss), s.foot + {r});
    PackHolds(r, node, s, t);
  }

  lemma PackHolds(r: TrieNode, node: TrieNode, s: Shape, t: Tree)
    requires Ptr(s) == node && r !in s.foot && t.Node? && t.kids.Dense? && ApartAll(s.subs, node, s.foot)
    requires |s.subs| == |t.kids.subs| == t.kids.max - t.kids.min + 1 && NonNull(t.kids.subs) == SPARSE_MAX
    requires forall j :: 0 <= j < |s.subs| ==> Rep(s.subs[j], t.kids.subs[j])
    requires r.refcount == 0 && r.ntype == SPARSE_MAX && r.prefix == t.prefix
    requires r.chars == PackChars(t.kids.min, t.kids.subs) && |r.child| == |PackShapes(s.subs)|
    requires forall j :: 0 <= j < |r.child| ==> r.child[j] == Ptr(PackShapes(s.subs)[j])
    ensures Holds(r, At(r, PackShapes(s.subs), s.foot + {r}),
                  Node(0, t.prefix, Sparse(PackChars(t.kids.min, t.kids.subs), PackSubs(t.kids.subs))))
  {
    var ss, ts := s.subs, t.kids.subs;
    assert ts[..|ts|] == ts && ss[..|ss|] == ss;
    PackLength(t.kids.min, ts);
    PackRep(ss, ts, |ss|);
    PackApart(ss, |ss|, node, s.foot, r);
  }

  /** One slot more. */
  lemma PackStep(min: nat, ss: seq<Shape>, ts: seq<Tree>, i: nat)
    requires i < |ss| == |ts| && min + |ts| <= 256 && Rep(ss[i], ts[i])
    ensures PackChars(min, ts[..i + 1]) == PackChars(min, ts[..i]) + if ss[i].Nil? then [] else [min + i]
    ensures PackShapes(ss[..i + 1]) == PackShapes(ss[..i]) + if ss[i].Nil? then [] else [ss[i]]
  {
    assert ts[..i + 1][..i] == ts[..i] && ss[..i + 1][..i] == ss[..i];
  }

  /** The loop of lines 612-620. */
  method PackSlots(node: TrieNode, n: nat, ghost ss: seq<Shape>, ghost ts: seq<Tree>)
    returns (chars: Bytes, child: seq<TrieNode?>)
    requires n == |ss| == |ts| == |node.child| && node.min + n <= 256
    requires forall j :: 0 <= j < |ss| ==> node.child[j] == Ptr(ss[j]) && Rep(ss[j], ts[j])
    ensures chars == PackChars(node.min, ts[..n])
    ensures |child| == |PackShapes(ss[..n])|
    ensures forall j :: 0 <= j < |child| ==> child[j] == Ptr(PackShapes(ss[..n])[j])
  {
    chars, child := [], [];
    var i := 0;
    while i != n
      invariant 0 <= i <= n
      invariant chars == PackChars(node.min, ts[..i])
      invariant |child| == |PackShapes(ss[..i])|
      invariant forall j :: 0 <= j < |child| ==> child[j] == Ptr(PackShapes(ss[..i])[j])
    {
      PackStep(node.min, ss, ts, i);
      var ch2 := node.child[i];
      if ch2 != null {
        chars := chars + [i + node.min];
        child := child + [ch2];
      }
      i := i + 1;
    }
  }

  // ---------------------------------------------------------------- the recursion

  /** Lines 519-625. */
  method PruneNode(node: TrieNode, c: Byte, ghost s: Shape, ghost t: Tree)
    returns (r: TrieNode?, ghost s': Shape)
    requires Ptr(s) == node && Holed(s, t, c) && WF(t)
    modifies Objs(s)
    ensures Holds(r, s', Prune(t, c)) && fresh(Objs(s') - Objs(s))
  {
    if node.ntype < DENSE_TYPE {
      r, s' := PruneSparseNode(node, c, s, t);
      return;
    }
    if node.nbr > SPARSE_MAX + 1 {
      s' := TrimNode(node, c, s, t);
      r := node;
      return;
    }
    NonNullUpdate(t.kids.subs, c - t.kids.min, Null);
    r, s' := ToSparse(node, s, t.(kids := SetSub(t.kids, Slot(t.kids, c), Null)));
  }

  /** Label `found` (lines 627-654). */
  method ReleaseNode(self: TrieNode?, ghost s: Shape, ghost t: Tree)
    returns (self': TrieNode?, code: int, ghost s': Shape)
    requires Holds(self, s, t) && WF(t)
    modifies Objs(s)
    ensures Release(t) == Done(code, Release(t).tree)
    ensures Holds(self', s', Release(t).tree) && Objs(s') <= Objs(s)
  {
    self', s' := self, s;
    if self == null || self.refcount == 0 {
      return self', -EINVAL, s';
    }
    assert ApartAll(s.subs, self, s.foot);
    assert forall j :: 0 <= j < |s.subs| ==> Rep(s.subs[j], t.kids.subs[j]);
    self.refcount := self.refcount - 1;
    RepPrefix(s, t, t.(refcount := t.refcount - 1));
    if self.refcount == 0 {
      if self.ntype == 0 {
        return null, 1, Nil;
      }
      self', s' := CompactNode(self, s, t.(refcount := 0));
      return self', 1, s';
    }
    return self', 0, s';
  }

  /** The child at index i of a node is replaced by another subtree. */
  lemma ReplaceRep(s: Shape, t: Tree, i: nat, sub: Shape, u: Tree)
    requires s.At? && t.Node? && i < |s.subs| == |t.kids.subs| == |s.obj.child|
    requires s.obj in s.foot && Header(s.obj, t) && s.obj.child[i] == Ptr(sub) && Rep(sub, u)
    requires forall j :: 0 <= j < |s.subs| && j != i ==>
               s.obj.child[j] == Ptr(s.subs[j]) && Objs(s.subs[j]) <= s.foot && Rep(s.subs[j], t.kids.subs[j])
    requires ApartAll(s.subs, s.obj, s.foot) && Apart(sub)
    requires s.obj !in Objs(sub)
    requires forall j :: 0 <= j < |s.subs| && j != i ==> Objs(s.subs[j]) !! Objs(sub)
    ensures var s' := At(s.obj, s.subs[i := sub], s.foot + Objs(sub));
            Rep(s', t.(kids := SetSub(t.kids, i, u))) && Apart(s')
  {
    var ss := s.subs[i := sub];
    assert ApartAll(ss, s.obj, s.foot + Objs(sub));
  }

  /** nn_node_unsubscribe.  The source writes the new subtree through `struct nn_trie_node **self`;
      here it is returned and the caller stores it. */
  method UnsubscribeNode(self: TrieNode?, data: Bytes, ghost s: Shape, ghost t: Tree)
    returns (self': TrieNode?, code: int, ghost s': Shape)
    requires Holds(self, s, t) && WF(t) && Unsubscribe(t, data).Done?
    modifies Objs(s)
    ensures Unsubscribe(t, data) == Done(code, Unsubscribe(t, data).tree)
    ensures Holds(self', s', Unsubscribe(t, data).tree)
    ensures fresh(Objs(s') - Objs(s))
    decreases |data|, 1
  {
    var where := Locate(self, data, s, t);
    match where
    case Nowhere =>
      self', code, s' := self, 0, s;
    case Here =>
      self', code, s' := ReleaseNode(self, s, t);
    case Below(index) =>
      self', code, s' := UnsubscribeBelow(self, index, data, s, t);
  }

  datatype Where = Nowhere | Here | Below(index: nat)

  /** Lines 488-505: where the walk goes from this node. */
  method Locate(self: TrieNode?, data: Bytes, ghost s: Shape, ghost t: Tree) returns (where: Where)
    requires Ptr(s) == self && Rep(s, t) && WF(t) && Unsubscribe(t, data).Done?
    ensures where.Nowhere? ==> Unsubscribe(t, data) == Done(0, t)
    ensures where.Here? ==> Unsubscribe(t, data) == Release(t)
    ensures where.Below? ==> data != [] && Walks(t, data) && where.index == Slot(t.kids, data[|t.prefix|])
  {
    if data == [] {
      return Here;
    }
    var n := CheckPrefix(self, data);
    if n != |self.prefix| {
      return Nowhere;
    }
    if n == |data| {
      return Here;
    }
    var index := Next(self, data[n], t);
    if index == -1 {
      return Nowhere;
    }
    return Below(index);
  }

  /** Lines 507-625. */
  method UnsubscribeBelow(self: TrieNode, index: nat, data: Bytes, ghost s: Shape, ghost t: Tree)
    returns (self': TrieNode?, code: int, ghost s': Shape)
    requires Holds(self, s, t) && WF(t) && data != [] && Walks(t, data)
    requires index == Slot(t.kids, data[|t.prefix|])
    requires Unsubscribe(t, data).Done?
    modifies Objs(s)
    ensures Unsubscribe(t, data) == Done(code, Unsubscribe(t, data).tree)
    ensures Holds(self', s', Unsubscribe(t, data).tree)
    ensures fresh(Objs(s') - Objs(s))
    decreases |data|, 0
  {
    ghost var c, ch, r := data[|t.prefix|], Child(t.kids, data[|t.prefix|]), After(t.prefix, data);
    UnsubscribeWalks(t, data);
    var ch', cc;
    ch', cc, s' := Recurse(self, index, data[|self.prefix| + 1..], s, t);
    if cc == 0 {
      ZeroKeeps(ch, r);
      return self, 0, s';
    }
    if ch' != null {
      return self, 1, s';
    }
    self', s' := PruneNode(self, data[|self.prefix|], s', t);
    code := 1;
  }

  /** The recursive call of line 510, with the write through the slot it was given. */
  method Recurse(self: TrieNode, index: nat, rest: Bytes, ghost s: Shape, ghost t: Tree)
    returns (ch': TrieNode?, code: int, ghost s': Shape)
    requires Holds(self, s, t) && WF(t) && t.Node? && index < |t.kids.subs|
    requires WF(t.kids.subs[index]) && Unsubscribe(t.kids.subs[index], rest).Done?
    modifies Objs(s)
    ensures var u := Unsubscribe(t.kids.subs[index], rest);
            && code == u.code && (ch' == null <==> u.tree.Null?)
            && Holds(self, s', t.(kids := SetSub(t.kids, index, u.tree)))
    ensures fresh(Objs(s') - Objs(s))
    decreases |rest|, 2
  {
    ghost var sub;
    assert ApartAll(s.subs, self, s.foot);
    ch', code, sub := UnsubscribeNode(self.child[index], rest, s.subs[index], t.kids.subs[index]);
    NullPtr(sub, Unsubscribe(t.kids.subs[index], rest).tree);
    s' := StoreChild(self, index, ch', s, t, sub, Unsubscribe(t.kids.subs[index], rest).tree);
  }

  /** Write a child pointer. */
  method StoreChild(node: TrieNode, index: nat, p: TrieNode?,
                    ghost s: Shape, ghost t: Tree, ghost sub: Shape, ghost u: Tree)
    returns (ghost s': Shape)
    requires s.At? && s.obj == node && ApartAll(s.subs, node, s.foot) && node in s.foot
    requires Header(node, t) && index < |s.subs| == |t.kids.subs| == |node.child|
    requires forall j :: 0 <= j < |s.subs| && j != index ==>
               node.child[j] == Ptr(s.subs[j]) && Rep(s.subs[j], t.kids.subs[j])
    requires Ptr(sub) == p && Rep(sub, u) && Apart(sub) && node !in Objs(sub)
    requires forall j :: 0 <= j < |s.subs| && j != index ==> Objs(s.subs[j]) !! Objs(sub)
    modifies node
    ensures s' == At(node, s.subs[index := sub], s.foot + Objs(sub))
    ensures Holds(node, s', t.(kids := SetSub(t.kids, index, u)))
  {
    node.child := node.child[index := p];
    s' := At(node, s.subs[index := sub], s.foot + Objs(sub));
    ReplaceRep(s, t, index, sub, u);
  }
}
