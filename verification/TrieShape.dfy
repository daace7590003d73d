/** Trie nodes on the heap, and what it means for a tree of nodes to hold a trie value. */
module TrieShape {
  import opened Wire
  import opened TrieModel

  const DENSE_TYPE := SPARSE_MAX + 1

  type Refcount = n: int | 0 <= n <= REFCOUNT_MAX

  /** struct nn_trie_node.  `chars` is the used part of u.sparse.children, `child` the array of
      pointers that follows the header in memory, `prefix` the first prefix_len bytes. */
  class TrieNode {
    var refcount: Refcount
    var ntype: nat
    var prefix: Bytes
    var chars: Bytes
    var min: Byte
    var max: Byte
    var nbr: nat
    var child: seq<TrieNode?>

    constructor (refcount: Refcount, ntype: nat, prefix: Bytes, chars: Bytes, child: seq<TrieNode?>)
      ensures this.refcount == refcount && this.ntype == ntype && this.prefix == prefix
      ensures this.chars == chars && this.child == child
    {
      this.refcount, this.ntype, this.prefix := refcount, ntype, prefix;
      this.chars, this.child := chars, child;
      this.min, this.max, this.nbr := 0, 0, 0;
    }
  }

  /** The nodes of a subtree: which object sits where, and a set that contains them all. */
  datatype Shape = Nil | At(obj: TrieNode, subs: seq<Shape>, foot: set<TrieNode>)

  ghost function Ptr(s: Shape): TrieNode? { if s.Nil? then null else s.obj }

  ghost function Objs(s: Shape): set<TrieNode> { if s.Nil? then {} else s.foot }

  /** The subtrees lie within foot, without o, and share no object. */
  ghost predicate ApartAll(ss: seq<Shape>, o: TrieNode, foot: set<TrieNode>)
    decreases ss
  {
    && (forall i :: 0 <= i < |ss| ==> Apart(ss[i]) && Objs(ss[i]) <= foot && o !in Objs(ss[i]))
    && (forall i, j :: 0 <= i < j < |ss| ==> Objs(ss[i]) !! Objs(ss[j]))
  }

  /** No object occurs twice. */
  ghost predicate Apart(s: Shape)
    decreases s
  {
    s.At? ==> s.obj in s.foot && ApartAll(s.subs, s.obj, s.foot)
  }

  /** The header fields of a node. */
  ghost predicate Header(o: TrieNode, t: Tree)
    reads o
  {
    && t.Node?
    && o.refcount == t.refcount && o.prefix == t.prefix
    && match t.kids
       case Sparse(chars, _) => o.ntype == |chars| <= SPARSE_MAX && o.chars == chars
       case Dense(min, max, nbr, _) => o.ntype == DENSE_TYPE && o.min == min && o.max == max && o.nbr == nbr
  }

  /** The nodes of s hold the trie value t. */
  ghost predicate Rep(s: Shape, t: Tree)
    reads Objs(s)
    decreases s
  {
    match s
    case Nil => t.Null?
    case At(o, subs, foot) =>
      && o in foot && Header(o, t)
      && |subs| == |t.kids.subs| == |o.child|
      && forall i :: 0 <= i < |subs| ==>
           o.child[i] == Ptr(subs[i]) && Objs(subs[i]) <= foot && Rep(subs[i], t.kids.subs[i])
  }

  /** p points to the nodes of s, no node occurs twice, and they hold t.  Written as an equation so
      that the verifier takes it as one fact instead of its many parts. */
  ghost predicate Holds(p: TrieNode?, s: Shape, t: Tree)
    reads Objs(s)
  {
    (Ptr(s) == p && Apart(s) && Rep(s, t)) == true
  }

  // ---------------------------------------------------------------- contexts

  /** A pointer to a pointer, as `struct nn_trie_node **node` in the source. */
  datatype SlotRef = Root | Kid(of: TrieNode, index: nat)

  /** The rest of the trie around one slot, from the slot outwards; `rest` contains the objects of
      the node that owns the slot and of its other subtrees, `around` those of the whole context. */
  datatype Ctx =
    | Top
    | Under(obj: TrieNode, i: nat, subs: seq<Shape>, t: Tree, rest: set<TrieNode>, up: Ctx, around: set<TrieNode>)

  ghost function SlotOf(c: Ctx): SlotRef { if c.Top? then Root else Kid(c.obj, c.i) }

  ghost function CtxObjs(c: Ctx): set<TrieNode> { if c.Top? then {} else c.around }

  ghost function Push(obj: TrieNode, i: nat, subs: seq<Shape>, t: Tree, rest: set<TrieNode>, up: Ctx): Ctx {
    Under(obj, i, subs, t, rest, up, rest + CtxObjs(up))
  }

  ghost predicate CtxFits(c: Ctx) {
    c.Under? ==>
      && c.t.Node? && c.i < |c.subs| == |c.t.kids.subs|
      && c.around == c.rest + CtxObjs(c.up)
      && CtxFits(c.up)
  }

  ghost function Filled(c: Ctx, s: Shape): Shape
    requires c.Under? && CtxFits(c)
  {
    At(c.obj, c.subs[c.i := s], c.rest + Objs(s))
  }

  ghost function FilledT(c: Ctx, t: Tree): Tree
    requires c.Under? && CtxFits(c)
  {
    c.t.(kids := SetSub(c.t.kids, c.i, t))
  }

  ghost function PlugS(c: Ctx, s: Shape): Shape
    requires CtxFits(c)
  {
    if c.Top? then s else PlugS(c.up, Filled(c, s))
  }

  ghost function PlugT(c: Ctx, t: Tree): Tree
    requires CtxFits(c)
  {
    if c.Top? then t else PlugT(c.up, FilledT(c, t))
  }

  ghost predicate CtxApart(c: Ctx) {
    c.Under? ==>
      && c.obj in c.rest
      && (forall i :: 0 <= i < |c.subs| && i != c.i ==>
            Apart(c.subs[i]) && Objs(c.subs[i]) <= c.rest && c.obj !in Objs(c.subs[i]))
      && (forall i, j :: 0 <= i < j < |c.subs| && i != c.i && j != c.i ==> Objs(c.subs[i]) !! Objs(c.subs[j]))
      && c.rest !! CtxObjs(c.up)
      && CtxApart(c.up)
  }

  /** The owner of the slot and its other subtrees hold their part of the trie. */
  ghost predicate OwnerRep(c: Ctx, hole: TrieNode?)
    requires c.Under? && CtxFits(c)
    reads c.rest
  {
    && c.obj in c.rest && Header(c.obj, c.t)
    && |c.obj.child| == |c.subs|
    && c.obj.child[c.i] == hole
    && forall j :: 0 <= j < |c.subs| && j != c.i ==>
         c.obj.child[j] == Ptr(c.subs[j]) && Objs(c.subs[j]) <= c.rest && Rep(c.subs[j], c.t.kids.subs[j])
  }

  /** The nodes around the slot hold their part of the trie; `hole` is what the slot contains. */
  ghost predicate CtxRep(c: Ctx, hole: TrieNode?, root: TrieNode?)
    requires CtxFits(c)
    reads CtxObjs(c)
    decreases c
  {
    if c.Top? then hole == root
    else OwnerRep(c, hole) && CtxRep(c.up, c.obj, root)
  }

  lemma {:induction false} PlugObjs(c: Ctx, s: Shape)
    requires CtxFits(c)
    ensures Objs(PlugS(c, s)) == CtxObjs(c) + Objs(s)
  {
    if c.Under? { PlugObjs(c.up, Filled(c, s)); }
  }

  lemma FilledRep(c: Ctx, s: Shape, t: Tree)
    requires c.Under? && CtxFits(c) && CtxApart(c) && Apart(s) && CtxObjs(c) !! Objs(s)
    requires OwnerRep(c, Ptr(s)) && Rep(s, t)
    ensures Rep(Filled(c, s), FilledT(c, t)) && Apart(Filled(c, s)) && CtxObjs(c.up) !! Objs(Filled(c, s))
  {
    var ss := c.subs[c.i := s];
    forall i, j | 0 <= i < j < |ss| ensures Objs(ss[i]) !! Objs(ss[j]) {
      if i == c.i { assert Objs(ss[j]) <= c.rest; }
      if j == c.i { assert Objs(ss[i]) <= c.rest; }
    }
  }

  /** Filling the slot of a context with a subtree gives a whole trie. */
  lemma {:induction false} PlugRep(c: Ctx, s: Shape, t: Tree, root: TrieNode?)
    requires CtxFits(c) && CtxApart(c) && Apart(s) && CtxObjs(c) !! Objs(s)
    requires CtxRep(c, Ptr(s), root) && Rep(s, t)
    ensures Rep(PlugS(c, s), PlugT(c, t)) && Apart(PlugS(c, s)) && Ptr(PlugS(c, s)) == root
    decreases c
  {
    if c.Under? {
      FilledRep(c, s, t);
      PlugRep(c.up, Filled(c, s), FilledT(c, t), root);
    }
  }
}
