/** struct nn_trie and its three operations, in place. */
module TrieHeap {
  import opened Wire
  import opened TrieModel
  import opened TrieKids
  import opened TrieTheory
  import opened TrieShape
  import opened TrieNodes
  import opened TrieOpen
  import opened TriePrune
  import opened TrieMatch

  class Trie {
    var root: TrieNode?
    ghost var shape: Shape   // which node sits where
    ghost var model: Tree    // the value held

    ghost predicate Rooted()
      reads this, Objs(shape)
    {
      Ptr(shape) == root && Apart(shape) && Rep(shape, model)
    }

    ghost predicate Valid()
      reads this, Objs(shape)
    {
      Rooted() && WF(model)
    }

    /** nn_trie_init. */
    constructor ()
      ensures Valid() && model == Null && shape == Nil
    {
      root, shape, model := null, Nil, Null;
    }

    // -------------------------------------------------------------- slots

    /** The trie around a slot whose content is the pointer `hole`.  (An equation, as for Holds.) */
    ghost predicate Around(slot: SlotRef, c: Ctx, hole: TrieNode?)
      reads this, CtxObjs(c)
    {
      (CtxFits(c) && CtxApart(c) && SlotOf(c) == slot && CtxRep(c, hole, root)) == true
    }

    /** The walk has reached a slot: `c` is the trie around it, `s` and `t` what it contains. */
    ghost predicate Focus(slot: SlotRef, c: Ctx, s: Shape, t: Tree)
      reads this, CtxObjs(c), Objs(s)
    {
      Around(slot, c, Ptr(s)) && CtxObjs(c) !! Objs(s) && Holds(Ptr(s), s, t)
    }

    /** `*slot` */
    function Load(slot: SlotRef): TrieNode?
      requires slot.Kid? ==> slot.index < |slot.of.child|
      reads this, if slot.Kid? then {slot.of} else {}
    {
      match slot
      case Root => root
      case Kid(of, index) => of.child[index]
    }

    lemma LoadIs(slot: SlotRef, c: Ctx, p: TrieNode?)
      requires Around(slot, c, p)
      ensures (slot.Kid? ==> slot.index < |slot.of.child|) && Load(slot) == p
    {
    }

    /** `*slot = p` */
    method Store(slot: SlotRef, p: TrieNode?, ghost c: Ctx, ghost hole: TrieNode?)
      requires Around(slot, c, hole)
      modifies `root, if slot.Kid? then {slot.of} else {}
      ensures Around(slot, c, p)
    {
      match slot
      case Root => root := p;
      case Kid(of, index) =>
        assert of in c.rest && of !in CtxObjs(c.up);
        of.child := of.child[index := p];
    }

    // -------------------------------------------------------------- nn_trie_subscribe

    /** The whole trie once the slot's content is final. */
    ghost method Close(slot: SlotRef, c: Ctx, s: Shape, t: Tree)
      requires Focus(slot, c, s, t)
      modifies `shape, `model
      ensures Rooted() && model == PlugT(c, t) && Objs(shape) == CtxObjs(c) + Objs(s)
    {
      PlugRep(c, s, t, root);
      PlugObjs(c, s);
      shape, model := PlugS(c, s), PlugT(c, t);
    }

    /** Step 5. */
    method Step5(slot: SlotRef, node: TrieNode, ghost c: Ctx, ghost s: Shape, ghost t: Tree) returns (ret: int)
      requires Focus(slot, c, s, t) && Ptr(s) == node
      modifies this`shape, this`model, node
      ensures Rooted() && model == PlugT(c, t.(refcount := Bump(t.refcount)))
      ensures Objs(shape) == CtxObjs(c) + Objs(s)
      ensures ret == if t.refcount == 0 then 1 else 0
    {
      assert ApartAll(s.subs, node, s.foot);
      assert forall j :: 0 <= j < |s.subs| ==> Rep(s.subs[j], t.kids.subs[j]);
      node.refcount := (node.refcount + 1) % (REFCOUNT_MAX + 1);
      RepPrefix(s, t, t.(refcount := Bump(t.refcount)));
      Close(slot, c, s, t.(refcount := Bump(t.refcount)));
      ret := if node.refcount == 1 then 1 else 0;
    }

    /** Step 4. */
    method Step4(slot: SlotRef, data: Bytes, ghost c: Ctx) returns (ret: int)
      requires Focus(slot, c, Nil, Null)
      modifies this, CtxObjs(c)
      ensures Rooted() && model == PlugT(c, Chain(data))
      ensures fresh(Objs(shape) - CtxObjs(c))
      ensures ret == 1
    {
      var node, d := slot, data;
      ghost var cc := c;
      while |d| > PREFIX_MAX
        invariant Focus(node, cc, Nil, Null)
        invariant PlugT(cc, Chain(d)) == PlugT(c, Chain(data))
        invariant fresh(CtxObjs(cc) - CtxObjs(c))
      {
        node, cc := Link(node, d, cc);
        d := d[PREFIX_MAX + 1..];
      }
      ret := LastNode(node, d, cc);
    }

    /** The node at the end of the chain, and step 5. */
    method LastNode(slot: SlotRef, d: Bytes, ghost c: Ctx) returns (ret: int)
      requires Focus(slot, c, Nil, Null) && |d| <= PREFIX_MAX
      modifies this, CtxObjs(c)
      ensures Rooted() && model == PlugT(c, Chain(d))
      ensures fresh(Objs(shape) - CtxObjs(c))
      ensures ret == 1
    {
      var last := new TrieNode(0, 0, d, [], []);
      ghost var s, t := At(last, [], {last}), Node(0, d, NO_KIDS);
      assert ApartAll([], last, {last}) && Header(last, t);
      assert Holds(last, s, t);
      Store(slot, last, c, null);
      ret := Step5(slot, last, c, s, t);
    }

    /** One more node of the chain: it takes PREFIX_MAX bytes and the character of its only child. */
    method Link(slot: SlotRef, d: Bytes, ghost c: Ctx) returns (slot': SlotRef, ghost c': Ctx)
      requires Focus(slot, c, Nil, Null) && |d| > PREFIX_MAX
      modifies `root, CtxObjs(c)
      ensures Focus(slot', c', Nil, Null)
      ensures PlugT(c', Chain(d[PREFIX_MAX + 1..])) == PlugT(c, Chain(d))
      ensures fresh(CtxObjs(c') - CtxObjs(c))
    {
      var n := new TrieNode(0, 1, d[..PREFIX_MAX], [d[PREFIX_MAX]], [null]);
      Store(slot, n, c, null);
      slot' := Kid(n, 0);
      c' := Push(n, 0, [Nil], Node(0, d[..PREFIX_MAX], Sparse([d[PREFIX_MAX]], [Null])), {n}, c);
      assert [Null][0 := Chain(d[PREFIX_MAX + 1..])] == [Chain(d[PREFIX_MAX + 1..])];
    }

    // -------------------------------------------------------------- steps 2 and 3

    /** What step 3 has done to the node in a slot, seen from the whole trie: the walk now stands at
        the open slot. */
    lemma Descend(slot: SlotRef, c: Ctx, node: TrieNode, w: Ctx, t': Tree, b: Byte) returns (c': Ctx)
      requires Around(slot, c, node) && Opened(w, node, t', b) && CtxObjs(w) !! CtxObjs(c)
      ensures c' == Push(node, w.i, w.subs, t', w.rest, c)
      ensures CtxObjs(c') == CtxObjs(c) + CtxObjs(w) && Focus(Kid(node, w.i), c', Nil, Null)
    {
      c' := Push(node, w.i, w.subs, t', w.rest, c);
    }

    /** Step 2 and what follows. */
    method Step2(slot: SlotRef, ch: TrieNode, pos: nat, rest: Bytes, ghost c: Ctx, ghost s: Shape, ghost t: Tree)
      returns (ret: int)
      requires Focus(slot, c, s, t) && Ptr(s) == ch && WF(t) && pos < |t.prefix|
      requires rest != [] ==> rest[0] != t.prefix[pos]
      modifies this, CtxObjs(c), Objs(s)
      ensures Rooted() && model == PlugT(c, Extend(Split(t, pos), rest))
      ensures fresh(Objs(shape) - CtxObjs(c) - Objs(s))
      ensures ret == 1
    {
      SplitWF(t, pos);
      var n, s' := SplitHere(slot, ch, pos, c, s, t);
      ret := Step3(slot, n, rest, c, s', Split(t, pos));
    }

    /** Lines 288-301. */
    method SplitHere(slot: SlotRef, ch: TrieNode, pos: nat, ghost c: Ctx, ghost s: Shape, ghost t: Tree)
      returns (n: TrieNode, ghost s': Shape)
      requires Focus(slot, c, s, t) && Ptr(s) == ch && WF(t) && pos < |t.prefix|
      modifies `root, CtxObjs(c), Objs(s)
      ensures Focus(slot, c, s', Split(t, pos)) && Ptr(s') == n && fresh(Objs(s') - Objs(s))
    {
      n, s' := SplitNode(ch, pos, s, t);
      Store(slot, n, c, ch);
    }

    /** Step 3 and what follows. */
    method Step3(slot: SlotRef, node: TrieNode, data: Bytes, ghost c: Ctx, ghost s: Shape, ghost t: Tree)
      returns (ret: int)
      requires Focus(slot, c, s, t) && Ptr(s) == node && WF(t)
      requires data != [] ==> Child(t.kids, data[0]) == Null
      requires data == [] ==> t.refcount == 0
      modifies this, CtxObjs(c), Objs(s)
      ensures Rooted() && model == PlugT(c, Extend(t, data))
      ensures fresh(Objs(shape) - CtxObjs(c) - Objs(s))
      ensures ret == 1
    {
      if data == [] {
        ret := Step5(slot, node, c, s, t);
        return;
      }
      ret := Branch(slot, node, data, c, s, t);
    }

    /** Step 3 when there is data left. */
    method Branch(slot: SlotRef, node: TrieNode, data: Bytes, ghost c: Ctx, ghost s: Shape, ghost t: Tree)
      returns (ret: int)
      requires Focus(slot, c, s, t) && Ptr(s) == node && WF(t)
      requires data != [] && Child(t.kids, data[0]) == Null
      modifies this, CtxObjs(c), Objs(s)
      ensures Rooted() && model == PlugT(c, Extend(t, data))
      ensures fresh(Objs(shape) - CtxObjs(c) - Objs(s))
      ensures ret == 1
    {
      ghost var w;
      var node', index;
      ExtendFills(t, data);
      node', index, w := MakeRoom(slot, node, data[0], c, s, t);
      ret := FillSlot(slot, node', index, data, c, w, OpenSlot(t, data[0]), Extend(t, data));
    }

    /** Lines 310-399. */
    method MakeRoom(slot: SlotRef, node: TrieNode, b: Byte, ghost c: Ctx, ghost s: Shape, ghost t: Tree)
      returns (node': TrieNode, index: nat, ghost w: Ctx)
      requires Focus(slot, c, s, t) && Ptr(s) == node && WF(t) && Child(t.kids, b) == Null
      modifies `root, CtxObjs(c), Objs(s)
      ensures Around(slot, c, node') && Opened(w, node', OpenSlot(t, b), b) && w.Under? && index == w.i
      ensures CtxObjs(w) !! CtxObjs(c) && fresh(CtxObjs(w) - Objs(s))
    {
      if node.ntype < SPARSE_MAX {
        node' := node;
        index, w := OpenSparseNode(node, b, s, t);
      } else if node.ntype == DENSE_TYPE {
        node' := node;
        index, w := OpenDenseNode(node, b, s, t);
      } else {
        node', index, w := OpenFullNode(node, b, s, t);
        Store(slot, node', c, node);
      }
    }

    /** From the open slot of step 3 to step 4. */
    method FillSlot(slot: SlotRef, node: TrieNode, index: nat, data: Bytes, ghost c: Ctx, ghost w: Ctx,
                    ghost t': Tree, ghost u: Tree)
      returns (ret: int)
      requires data != [] && Around(slot, c, node) && Opened(w, node, t', data[0]) && CtxObjs(w) !! CtxObjs(c)
      requires w.Under? && index == w.i && Fills(t', data[0], Chain(data[1..]), u)
      modifies this, CtxObjs(c), CtxObjs(w)
      ensures Rooted() && model == PlugT(c, u)
      ensures fresh(Objs(shape) - CtxObjs(c) - CtxObjs(w))
      ensures ret == 1
    {
      ghost var c' := Descend(slot, c, node, w, t', data[0]);
      ret := Step4(Kid(node, index), data[1..], c');
    }

    // -------------------------------------------------------------- the whole operation

    /** nn_trie_subscribe.  At the 2^32nd subscription of a string its count wraps to 0. */
    method Subscribe(data: Bytes) returns (ret: int)
      requires Valid()
      modifies this, Objs(shape)
      ensures Rooted() && (Valid() <==> !Hollows(old(model), data)) && fresh(Objs(shape) - old(Objs(shape)))
      ensures model == TrieModel.Subscribe(old(model), data)
      ensures ret == if Count(old(model), data) == 0 then 1 else 0
      ensures forall s :: Count(model, s) == CountAfterSubscribe(old(model), data, s)
    {
      SubscribeSpec(model, data);
      ret := Walk(data);
    }

    /** One turn of the loop of step 1, seen from the whole trie. */
    lemma Enter(slot: SlotRef, c: Ctx, s: Shape, t: Tree, index: nat) returns (c': Ctx)
      requires Focus(slot, c, s, t) && s.At? && index < |s.subs|
      ensures c' == Push(s.obj, index, s.subs, t, s.foot - Objs(s.subs[index]), c)
      ensures CtxFits(c') && Focus(Kid(s.obj, index), c', s.subs[index], t.kids.subs[index])
      ensures CtxObjs(c') + Objs(s.subs[index]) == CtxObjs(c) + Objs(s)
    {
      c' := Push(s.obj, index, s.subs, t, s.foot - Objs(s.subs[index]), c);
      assert ApartAll(s.subs, s.obj, s.foot);
      assert CtxFits(c') && CtxApart(c');
      assert Rep(s, t);
      assert OwnerRep(c', Ptr(s.subs[index]));
    }

    /** What the walk still has to do, below the slot it has reached, amounts to the whole operation. */
    ghost predicate Pending(c: Ctx, t: Tree, d: Bytes, m: Tree, data: Bytes)
      requires WF(m)
    {
      && CtxFits(c) && WF(t)
      && PlugT(c, TrieModel.Subscribe(t, d)) == TrieModel.Subscribe(m, data)
      && Count(t, d) == Count(m, data)
    }

    lemma PendingBelow(c: Ctx, s: Shape, t: Tree, d: Bytes, m: Tree, data: Bytes, index: nat, c': Ctx)
      requires WF(m) && Pending(c, t, d, m, data) && Descends(t, d)
      requires s.At? && index == Slot(t.kids, d[|t.prefix|]) && index < |t.kids.subs| == |s.subs|
      requires c' == Push(s.obj, index, s.subs, t, s.foot - Objs(s.subs[index]), c) && CtxFits(c')
      ensures Pending(c', t.kids.subs[index], After(t.prefix, d), m, data)
    {
      SubscribeDown(t, d);
    }

    /** Lines 258-279: does the walk go on below this node, and through which slot? */
    method Look(slot: SlotRef, d: Bytes, ghost c: Ctx, ghost s: Shape, ghost t: Tree)
      returns (node: TrieNode?, stop: bool, pos: nat, index: nat)
      requires Focus(slot, c, s, t) && WF(t)
      ensures Focus(slot, c, s, t) && Ptr(s) == node
      ensures stop <==> !Descends(t, d)
      ensures node != null ==> t.Node? && pos == Common(t.prefix, d)
      ensures !stop ==> s.At? && pos == |t.prefix| && index < |s.subs| == |t.kids.subs|
                        && index == Slot(t.kids, d[pos])
    {
      LoadIs(slot, c, Ptr(s));
      node, stop, pos, index := Load(slot), true, 0, 0;
      if node == null {
        return;
      }
      assert Rep(s, t);
      pos := CheckPrefix(node, d);
      if pos < |node.prefix| || pos == |d| {
        return;
      }
      var n := Next(node, d[pos], t);
      if n != -1 {
        index := n;
        NullPtr(s.subs[n], t.kids.subs[n]);
        stop := node.child[n] == null;
      }
    }

    /** Step 1: walk to the place where the subscription belongs. */
    method Locate(data: Bytes)
      returns (slot: SlotRef, node: TrieNode?, pos: nat, d: Bytes, ghost c: Ctx, ghost s: Shape, ghost t: Tree)
      requires Valid()
      ensures Focus(slot, c, s, t) && CtxObjs(c) + Objs(s) == Objs(shape) && Ptr(s) == node
      ensures Pending(c, t, d, model, data)
      ensures !Descends(t, d) && (node != null ==> pos == Common(t.prefix, d))
    {
      slot, d, pos := Root, data, 0;
      c, s, t := Top, shape, model;
      while true
        invariant Focus(slot, c, s, t) && CtxObjs(c) + Objs(s) == Objs(shape)
        invariant Pending(c, t, d, model, data)
        decreases |d|
      {
        var stop, index;
        node, stop, pos, index := Look(slot, d, c, s, t);
        if stop {
          return;
        }
        ghost var c' := Enter(slot, c, s, t, index);
        PendingBelow(c, s, t, d, model, data, index, c');
        slot, c := Kid(node, index), c';
        s, t, d := s.subs[index], t.kids.subs[index], d[pos + 1..];
      }
    }

    lemma SubscribeHere(t: Tree, d: Bytes)
      requires WF(t) && !Descends(t, d)
      ensures t.Null? ==> TrieModel.Subscribe(t, d) == Chain(d) && Count(t, d) == 0
      ensures t.Node? ==>
                var pos := Common(t.prefix, d);
                if pos < |t.prefix| then
                  && TrieModel.Subscribe(t, d) == Extend(Split(t, pos), d[pos..])
                  && (d[pos..] != [] ==> d[pos..][0] != t.prefix[pos])
                  && Count(t, d) == 0
                else if pos == |d| then
                  && TrieModel.Subscribe(t, d) == t.(refcount := Bump(t.refcount))
                  && Count(t, d) == t.refcount
                else
                  && Child(t.kids, d[pos..][0]) == Null
                  && TrieModel.Subscribe(t, d) == Extend(t, d[pos..])
                  && Count(t, d) == 0
    {
    }

    /** Steps 1 to 5. */
    method Walk(data: Bytes) returns (ret: int)
      requires Valid()
      modifies this, Objs(shape)
      ensures Rooted() && fresh(Objs(shape) - old(Objs(shape)))
      ensures model == TrieModel.Subscribe(old(model), data)
      ensures ret == if Count(old(model), data) == 0 then 1 else 0
    {
      var slot, node, pos, d;
      ghost var c, s, t;
      slot, node, pos, d, c, s, t := Locate(data);
      ret := Land(slot, node, pos, d, c, s, t);
    }

    /** Where step 1 goes on to. */
    method Land(slot: SlotRef, node: TrieNode?, pos: nat, d: Bytes, ghost c: Ctx, ghost s: Shape, ghost t: Tree)
      returns (ret: int)
      requires Focus(slot, c, s, t) && Ptr(s) == node && WF(t) && !Descends(t, d)
      requires node != null ==> t.Node? && pos == Common(t.prefix, d)
      modifies this, CtxObjs(c), Objs(s)
      ensures Rooted() && fresh(Objs(shape) - CtxObjs(c) - Objs(s))
      ensures model == PlugT(c, TrieModel.Subscribe(t, d))
      ensures ret == if Count(t, d) == 0 then 1 else 0
    {
      SubscribeHere(t, d);
      if node == null {
        ret := Step4(slot, d, c);
      } else if pos < |node.prefix| {
        ret := Step2(slot, node, pos, d[pos..], c, s, t);
      } else if pos == |d| {
        ret := Step5(slot, node, c, s, t);
      } else {
        ret := Step3(slot, node, d[pos..], c, s, t);
      }
    }

    // -------------------------------------------------------------- nn_trie_unsubscribe

    /** nn_trie_unsubscribe, wherever the source returns: it has no NULL check on line 492, and line 621 fails
        when data end at a hole in a dense node with nine children.  At any other hole the trie is not valid
        afterwards, although it still holds the same strings. */
    method Unsubscribe(data: Bytes) returns (ret: int)
      requires Valid() && !HitsNull(model, data) && !GapAtNine(model, data)
      modifies this, Objs(shape)
      ensures Rooted() && (Valid() <==> !Gap(old(model), data)) && fresh(Objs(shape) - old(Objs(shape)))
      ensures TrieModel.Unsubscribe(old(model), data) == Done(ret, model)
      ensures forall s :: Count(model, s) == CountAfterUnsubscribe(old(model), data, s)
    {
      UnsubscribeSpec(model, data);
      ret := UnsubscribeRoot(data);
    }

    method UnsubscribeRoot(data: Bytes) returns (ret: int)
      requires Valid() && TrieModel.Unsubscribe(model, data).Done?
      modifies this, Objs(shape)
      ensures Rooted() && fresh(Objs(shape) - old(Objs(shape)))
      ensures TrieModel.Unsubscribe(old(model), data) == Done(ret, model)
    {
      ghost var sub;
      root, ret, sub := UnsubscribeNode(root, data, shape, model);
      shape, model := sub, TrieModel.Unsubscribe(model, data).tree;
    }

    // -------------------------------------------------------------- nn_trie_match

    /** nn_trie_match on the size bytes at the start of mem. */
    method Match(mem: Bytes, size: nat) returns (verdict: Verdict)
      requires Valid()
      ensures verdict == TrieMatch.Match(model, mem, size)
    {
      var node, m, left: nat := root, mem, size;
      ghost var s, t := shape, model;
      var stop;
      while node != null
        invariant Holds(node, s, t) && WF(t) && TrieMatch.Match(t, m, left) == TrieMatch.Match(model, mem, size)
        decreases |m|
      {
        stop, verdict, node, m, left, s, t := MatchNode(node, m, left, s, t);
        if stop {
          return;
        }
      }
      return Miss;
    }
  }

  /** One turn of the loop of nn_trie_match: a verdict, or the node below and the data left. */
  method MatchNode(node: TrieNode, m: Bytes, left: nat, ghost s: Shape, ghost t: Tree)
    returns (stop: bool, verdict: Verdict, node': TrieNode?, m': Bytes, left': nat, ghost s': Shape, ghost t': Tree)
    requires Holds(node, s, t) && WF(t)
    ensures stop ==> verdict == TrieMatch.Match(t, m, left)
    ensures !stop ==> Holds(node', s', t') && WF(t') && |m'| < |m|
    ensures !stop ==> TrieMatch.Match(t', m', left') == TrieMatch.Match(t, m, left)
  {
    stop, verdict, node', m', left', s', t' := true, Miss, node, m, left, s, t;
    MatchTurn(t, m, left);
    assert Header(node, t);
    var check := CheckMemory(node.prefix, m, left);
    if check != Full {
      verdict := if check == Part then Miss else Stray;
      return;
    }
    if node.refcount != 0 {
      verdict := Hit;
      return;
    }
    var skip := |node.prefix|;
    if |m| == skip {
      verdict := Stray;
      return;
    }
    stop := false;
    m' := m[skip + 1..];
    left' := if left == skip then SIZE_MAX else left - skip - 1;
    node', s', t' := NextNode(node, m[skip], s, t);
  }

  /** u is t' with the subtree ch in its slot for b. */
  ghost predicate Fills(t': Tree, b: Byte, ch: Tree, u: Tree) {
    (t'.Node? && 0 <= Slot(t'.kids, b) < |t'.kids.subs|
     && u == t'.(kids := SetSub(t'.kids, Slot(t'.kids, b), ch))) == true
  }

  lemma ExtendFills(t: Tree, d: Bytes)
    requires WF(t) && t.Node? && d != [] && Child(t.kids, d[0]) == Null
    ensures Fills(OpenSlot(t, d[0]), d[0], Chain(d[1..]), Extend(t, d))
  {
    ExtendIs(t, d);
  }

  /** One turn of the loop of nn_trie_match. */
  lemma MatchTurn(t: Tree, m: Bytes, left: nat)
    requires t.Node?
    ensures var check, skip := PrefixInMemory(t.prefix, m, left), |t.prefix|;
            match check
            case Overrun => TrieMatch.Match(t, m, left) == Stray
            case Part => TrieMatch.Match(t, m, left) == Miss
            case Full =>
              && t.prefix <= m && skip <= left
              && (t.refcount > 0 ==> TrieMatch.Match(t, m, left) == Hit)
              && (t.refcount == 0 && |m| == skip ==> TrieMatch.Match(t, m, left) == Stray)
              && (t.refcount == 0 && |m| > skip ==>
                    TrieMatch.Match(t, m, left) ==
                    TrieMatch.Match(Child(t.kids, m[skip]), m[skip + 1..],
                                    if left == skip then SIZE_MAX else left - skip - 1))
  {
    PrefixInMemorySpec(t.prefix, m, left);
  }

  /** Lines 465-466: the node below for c, NULL when there is none. */
  method NextNode(node: TrieNode, c: Byte, ghost s: Shape, ghost t: Tree)
    returns (p: TrieNode?, ghost s': Shape, ghost t': Tree)
    requires Holds(node, s, t) && WF(t)
    ensures t.Node? && t' == Child(t.kids, c) && Holds(p, s', t') && WF(t')
  {
    assert Rep(s, t);
    WFChild(t, c);
    var n := Next(node, c, t);
    if n == -1 {
      return null, Nil, Null;
    }
    ChildHolds(node, s, t, n);
    return node.child[n], s.subs[n], t.kids.subs[n];
  }

  lemma SubscribeSpec(t: Tree, d: Bytes)
    requires WF(t)
    ensures WF(TrieModel.Subscribe(t, d)) <==> !Hollows(t, d)
    ensures forall s :: Count(TrieModel.Subscribe(t, d), s) == CountAfterSubscribe(t, d, s)
  {
    SubscribeWF(t, d);
    forall s { SubscribeCount(t, d, s); }
  }

  lemma UnsubscribeSpec(t: Tree, d: Bytes)
    requires WF(t) && !HitsNull(t, d) && !GapAtNine(t, d)
    ensures TrieModel.Unsubscribe(t, d).Done? && (WF(TrieModel.Unsubscribe(t, d).tree) <==> !Gap(t, d))
    ensures forall s :: Count(TrieModel.Unsubscribe(t, d).tree, s) == CountAfterUnsubscribe(t, d, s)
  {
    UnsubscribeFault(t, d);
    UnsubscribeWF(t, d);
    forall s { UnsubscribeCount(t, d, s); }
  }

  lemma ChildHolds(p: TrieNode, s: Shape, t: Tree, i: nat)
    requires Holds(p, s, t) && i < |t.kids.subs|
    ensures i < |p.child| && i < |s.subs| && Holds(p.child[i], s.subs[i], t.kids.subs[i])
  {
    assert Rep(s, t) && ApartAll(s.subs, s.obj, s.foot);
  }

  /** nn_node_check_prefix on raw memory. */
  method CheckMemory(p: Bytes, mem: Bytes, size: nat) returns (check: Check)
    ensures check == PrefixInMemory(p, mem, size)
  {
    var i := 0;
    while i != |p|
      invariant i <= |p| && i <= |mem| && i <= size
      invariant PrefixInMemory(p[i..], mem[i..], size - i) == PrefixInMemory(p, mem, size)
    {
      if size == i {
        return Part;
      }
      if |mem| == i {
        return Overrun;
      }
      if p[i] != mem[i] {
        return Part;
      }
      assert p[i..][1..] == p[i + 1..] && mem[i..][1..] == mem[i + 1..];
      i := i + 1;
    }
    return Full;
  }
}
