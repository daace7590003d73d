/** The trie against its specification: a multiset of byte strings.
    `Count(t, s)` is the multiplicity of s in the multiset that the trie t stands for. */
module TrieTheory {
  import opened Wire
  import opened TrieModel
  import opened TrieKids

  // ---------------------------------------------------------------- unfolding Count

  /** The rest of s once a node's prefix and the character of the edge to a child are taken off. */
  function After(p: Bytes, s: Bytes): Bytes
    requires |p| < |s|
  {
    s[|p| + 1..]
  }

  /** Nodes with the same prefix, refcount and children hold the same strings. */
  lemma CountSame(t: Tree, t': Tree, s: Bytes)
    requires t.Node? && t'.Node? && t.prefix == t'.prefix && t.refcount == t'.refcount
    requires forall x :: Child(t.kids, x) == Child(t'.kids, x)
    ensures Count(t, s) == Count(t', s)
  {
  }

  lemma WFChild(t: Tree, c: Byte)
    requires WF(t) && t.Node?
    ensures WF(Child(t.kids, c))
  {
  }

  lemma WFWith(t: Tree, c: Byte, u: Tree)
    requires WF(t) && t.Node? && !Child(t.kids, c).Null? && !u.Null?
    ensures WF(t.(kids := SetSub(t.kids, Slot(t.kids, c), u))) <==> WF(u)
  {
    WFSetSub(t.kids, c, u);
    var t' := t.(kids := SetSub(t.kids, Slot(t.kids, c), u));
    assert t'.kids.subs[Slot(t.kids, c)] == u;
  }

  /** Replacing the child for c changes exactly the counts of the strings that go through c. */
  lemma CountWith(t: Tree, c: Byte, u: Tree, s: Bytes)
    requires t.Node? && Reaches(t.kids, c)
    ensures var t' := t.(kids := SetSub(t.kids, Slot(t.kids, c), u));
            Count(t', s) == if t.prefix <= s && |s| > |t.prefix| && s[|t.prefix|] == c
                            then Count(u, After(t.prefix, s)) else Count(t, s)
  {
    forall x { ChildSetSub(t.kids, c, u, x); }
  }

  /** The string goes on below a node with this prefix, with this character. */
  predicate Through(p: Bytes, c: Byte, s: Bytes) {
    p <= s && |s| > |p| && s[|p|] == c
  }

  // ---------------------------------------------------------------- compaction

  lemma PrefixJoin(p: Bytes, c: Byte, q: Bytes, s: Bytes)
    ensures p + [c] + q <= s <==> p <= s && |s| > |p| && s[|p|] == c && q <= After(p, s)
  {
    var n := |p| + 1;
    if p + [c] + q <= s {
      assert (p + [c] + q)[..|p|] == p && (p + [c] + q)[|p|] == c && (p + [c] + q)[n..] == q;
      assert s[..|p|] == p && s[n..][..|q|] == s[..n + |q|][n..] == q;
    }
    if p <= s && |s| > |p| && s[|p|] == c && q <= After(p, s) {
      assert s[..n + |q|] == s[..|p|] + [s[|p|]] + s[n..][..|q|];
    }
  }

  /** A bare node above its only child holds the same strings as the two joined in one node. */
  lemma MergeCount(p: Bytes, c: Byte, ch: Tree, s: Bytes)
    requires ch.Node?
    ensures Count(Node(0, p, Sparse([c], [ch])), s)
         == Count(Node(ch.refcount, p + [c] + ch.prefix, ch.kids), s)
  {
    var q := ch.prefix;
    PrefixJoin(p, c, q, s);
    if p + [c] + q <= s && |s| > |p| + 1 + |q| {
      assert After(q, After(p, s)) == After(p + [c] + q, s);
    }
  }

  /** Merging a node with its only child changes no count. */
  lemma CompactCount(t: Tree, s: Bytes)
    ensures Count(Compact(t), s) == Count(t, s)
  {
    if Compact(t) != t {
      var c, ch := t.kids.chars[0], t.kids.subs[0];
      assert t == Node(0, t.prefix, Sparse([c], [ch]));
      MergeCount(t.prefix, c, ch, s);
    }
  }

  lemma CompactWF(t: Tree)
    requires WF(t)
    ensures WF(Compact(t)) && (t.Node? ==> Compact(t).Node?)
  {
  }

  // ---------------------------------------------------------------- subscribe

  lemma {:induction false} ChainSpec(d: Bytes, s: Bytes)
    ensures WF(Chain(d)) && Chain(d).Node?
    ensures Count(Chain(d), s) == if s == d then 1 else 0
    decreases |d|
  {
    if |d| > PREFIX_MAX {
      var p, c, r := d[..PREFIX_MAX], d[PREFIX_MAX], d[PREFIX_MAX + 1..];
      assert d == p + [c] + r;
      if p <= s && |s| > |p| {
        ChainSpec(r, After(p, s));
        assert s == p + [s[|p|]] + After(p, s);
      } else {
        ChainSpec(r, []);
      }
    }
  }

  lemma SplitWF(t: Tree, pos: nat)
    requires WF(t) && t.Node? && pos < |t.prefix|
    ensures WF(Split(t, pos)) && Split(t, pos).Node?
  {
    CompactWF(t.(prefix := t.prefix[pos + 1..]));
  }

  /** Splitting a prefix (and compacting its lower part) changes no count. */
  lemma SplitCount(t: Tree, pos: nat, s: Bytes)
    requires t.Node? && pos < |t.prefix|
    ensures Count(Split(t, pos), s) == Count(t, s)
  {
    var low := t.(prefix := t.prefix[pos + 1..]);
    var p, c := t.prefix[..pos], t.prefix[pos];
    assert t.prefix == p + [c] + low.prefix;
    MergeCount(p, c, low, s);
    if Through(p, c, s) { CompactCount(low, After(p, s)); }
    SwapChild(p, c, low, Compact(low), s);
  }

  /** Only the strings through c depend on an only child. */
  lemma SwapChild(p: Bytes, c: Byte, ch: Tree, ch': Tree, s: Bytes)
    requires Through(p, c, s) ==> Count(ch, After(p, s)) == Count(ch', After(p, s))
    ensures Count(Node(0, p, Sparse([c], [ch])), s) == Count(Node(0, p, Sparse([c], [ch'])), s)
  {
  }

  lemma ExtendIs(t: Tree, d: Bytes)
    requires t.Node? && WFKids(t.kids) && d != [] && Child(t.kids, d[0]) == Null
    ensures var t', ch := OpenSlot(t, d[0]), Chain(d[1..]);
            && t'.Node? && ch.Node?
            && Reaches(t'.kids, d[0])
            && WFKids(SetSub(t'.kids, Slot(t'.kids, d[0]), ch))
            && Extend(t, d) == t'.(kids := SetSub(t'.kids, Slot(t'.kids, d[0]), ch))
            && forall x :: Child(t'.kids, x) == Child(t.kids, x)
  {
    ChainSpec(d[1..], []);
    OpenSlotSpec(t, d[0], Chain(d[1..]));
  }

  lemma ExtendWF(t: Tree, d: Bytes)
    requires t.Node? && t.refcount <= REFCOUNT_MAX && |t.prefix| <= PREFIX_MAX && WFKids(t.kids)
    requires forall i :: 0 <= i < |t.kids.subs| ==> WF(t.kids.subs[i])
    requires d != [] && Child(t.kids, d[0]) == Null
    ensures WF(Extend(t, d)) && Extend(t, d).Node?
  {
    ExtendIs(t, d);
    ChainSpec(d[1..], []);
    OpenSlotSubs(t, d[0]);
    assert Extend(t, d).kids.subs != [];
  }

  /** Adding d below a node that has no child for d[0]: d gets count 1, and nothing else changes
      except the node's own count when it is converted to a dense node. */
  lemma ExtendCount(t: Tree, d: Bytes, s: Bytes)
    requires t.Node? && WFKids(t.kids) && d != [] && Child(t.kids, d[0]) == Null
    ensures Count(Extend(t, d), s)
         == if s == t.prefix + d then 1
            else if s == t.prefix && t.kids.Sparse? && |t.kids.chars| == SPARSE_MAX then 0
            else Count(t, s)
  {
    var c, p := d[0], t.prefix;
    var t' := OpenSlot(t, c);
    ExtendIs(t, d);
    CountWith(t', c, Chain(d[1..]), s);
    if p <= s && |s| > |p| {
      JoinCut(p, d, s);
      ChainSpec(d[1..], After(p, s));
      CountSame(t', t.(refcount := t'.refcount), s);
    }
  }

  /** s is p + d exactly when it starts with p, goes on with d[0], and the rest is d[1..]. */
  lemma JoinCut(p: Bytes, d: Bytes, s: Bytes)
    requires p <= s && |s| > |p| && d != []
    ensures s == p + d <==> s[|p|] == d[0] && After(p, s) == d[1..]
  {
    assert s == p + [s[|p|]] + After(p, s);
    assert d == [d[0]] + d[1..];
    assert (p + d)[|p|] == d[0] && (p + d)[|p| + 1..] == d[1..];
  }

  lemma OpenSlotSubs(t: Tree, c: Byte)
    requires t.Node? && WFKids(t.kids) && Child(t.kids, c) == Null
    requires forall i :: 0 <= i < |t.kids.subs| ==> WF(t.kids.subs[i])
    ensures var k := OpenSlot(t, c).kids; forall i :: 0 <= i < |k.subs| ==> WF(k.subs[i])
  {
    var k := OpenSlot(t, c).kids;
    if t.kids.Sparse? && |t.kids.chars| == SPARSE_MAX {
      forall i | 0 <= i < |k.subs| ensures WF(k.subs[i]) {
        ToDenseAt(t.kids, c, k.min + i);
      }
    }
  }

  // ---------------------------------------------------------------- subscribe, end to end

  /** The walk goes on below t, to the child for d[|t.prefix|]. */
  predicate Descends(t: Tree, d: Bytes) {
    t.Node? && t.prefix <= d && |d| > |t.prefix| && !Child(t.kids, d[|t.prefix|]).Null?
  }

  lemma SubscribeDown(t: Tree, d: Bytes)
    requires WF(t) && Descends(t, d)
    ensures var c := d[|t.prefix|];
            && WF(Child(t.kids, c)) && Reaches(t.kids, c)
            && Subscribe(t, d) == t.(kids := SetSub(t.kids, Slot(t.kids, c),
                                                    Subscribe(Child(t.kids, c), After(t.prefix, d))))
  {
    WFReaches(t.kids, d[|t.prefix|]);
  }

  /** The count of d would become 2^32, and wraps to 0. */
  predicate AtLimit(t: Tree, d: Bytes) { Count(t, d) == REFCOUNT_MAX }

  /** The same, at a node without children: it stays, and holds nothing. */
  predicate Hollows(t: Tree, d: Bytes)
    decreases |d|
  {
    if Descends(t, d) then Hollows(Child(t.kids, d[|t.prefix|]), After(t.prefix, d))
    else t.Node? && t.prefix == d && t.refcount == REFCOUNT_MAX && t.kids == NO_KIDS
  }

  lemma {:induction false} HollowsAtLimit(t: Tree, d: Bytes)
    requires Hollows(t, d)
    ensures AtLimit(t, d)
    decreases |d|
  {
    if Descends(t, d) { HollowsAtLimit(Child(t.kids, d[|t.prefix|]), After(t.prefix, d)); }
  }

  lemma SubscribeNode(t: Tree, d: Bytes)
    requires WF(t)
    ensures Subscribe(t, d).Node?
  {
    if t.Null? {
      ChainSpec(d, []);
    } else if !Descends(t, d) {
      SubscribeNodeHere(t, d);
    }
  }

  lemma SubscribeNodeHere(t: Tree, d: Bytes)
    requires WF(t) && t.Node? && !Descends(t, d)
    ensures Subscribe(t, d).Node?
  {
    var pos := Common(t.prefix, d);
    if pos < |t.prefix| {
      SplitWF(t, pos);
      SplitMisses(t, d);
      if d[pos..] != [] { ExtendWF(Split(t, pos), d[pos..]); }
    } else if pos < |d| {
      ExtendWF(t, d[pos..]);
    }
  }

  /** The structure invariant survives a subscribe exactly when it does not wrap the count of a node without
      children. */
  lemma {:induction false} SubscribeWF(t: Tree, d: Bytes)
    requires WF(t)
    ensures WF(Subscribe(t, d)) <==> !Hollows(t, d)
    decreases |d|
  {
    if t.Null? {
      ChainSpec(d, []);
    } else if Descends(t, d) {
      WFChild(t, d[|t.prefix|]);
      SubscribeWF(Child(t.kids, d[|t.prefix|]), After(t.prefix, d));
      SubscribeWFDown(t, d);
    } else {
      SubscribeWFHere(t, d);
    }
  }

  lemma SubscribeWFDown(t: Tree, d: Bytes)
    requires WF(t) && Descends(t, d) && WF(Child(t.kids, d[|t.prefix|]))
    ensures WF(Subscribe(t, d)) <==> WF(Subscribe(Child(t.kids, d[|t.prefix|]), After(t.prefix, d)))
  {
    SubscribeDown(t, d);
    SubscribeNode(Child(t.kids, d[|t.prefix|]), After(t.prefix, d));
    WFWith(t, d[|t.prefix|], Subscribe(Child(t.kids, d[|t.prefix|]), After(t.prefix, d)));
  }

  lemma SubscribeWFHere(t: Tree, d: Bytes)
    requires WF(t) && t.Node? && !Descends(t, d)
    ensures WF(Subscribe(t, d)) <==> !Hollows(t, d)
  {
    var pos := Common(t.prefix, d);
    if pos < |t.prefix| {
      SplitWF(t, pos);
      SplitMisses(t, d);
      if d[pos..] != [] { ExtendWF(Split(t, pos), d[pos..]); }
    } else if pos < |d| {
      ExtendWF(t, d[pos..]);
    }
  }

  /** After a split the node has no child for the next character of the data. */
  lemma SplitMisses(t: Tree, d: Bytes)
    requires t.Node? && Common(t.prefix, d) < |t.prefix|
    ensures var pos := Common(t.prefix, d);
            d[pos..] != [] ==> Child(Split(t, pos).kids, d[pos..][0]) == Null
  {
  }

  /** What the count of s should be after a subscription to d. */
  function CountAfterSubscribe(t: Tree, d: Bytes, s: Bytes): nat
    requires WF(t)
  {
    if s == d then Bump(Count(t, d)) else if Converts(t, d, s) then 0 else Count(t, s)
  }

  /** nn_trie_subscribe adds one, in 32 bits, to the count of its argument and leaves every other count alone,
      except that a full sparse node on the path that is converted to a dense one (line 382) loses
      its own count. */
  lemma {:induction false} SubscribeCount(t: Tree, d: Bytes, s: Bytes)
    requires WF(t)
    ensures Count(Subscribe(t, d), s)
         == if s == d then Bump(Count(t, d)) else if Converts(t, d, s) then 0 else Count(t, s)
    decreases |d|
  {
    if Descends(t, d) {
      WFChild(t, d[|t.prefix|]);
      if t.prefix <= s && |s| > |t.prefix| {
        SubscribeCount(Child(t.kids, d[|t.prefix|]), After(t.prefix, d), After(t.prefix, s));
      }
      SubscribeCountDown(t, d, s);
    } else {
      SubscribeCountHere(t, d, s);
    }
  }

  lemma SubscribeCountHere(t: Tree, d: Bytes, s: Bytes)
    requires WF(t) && !Descends(t, d)
    ensures Count(Subscribe(t, d), s) == CountAfterSubscribe(t, d, s)
  {
    if t.Null? {
      ChainSpec(d, s);
    } else if Common(t.prefix, d) < |t.prefix| {
      SubscribeCountSplit(t, d, s);
    } else if |d| > |t.prefix| {
      assert d == t.prefix + d[|t.prefix|..];
      ExtendCount(t, d[|t.prefix|..], s);
      assert Child(t.kids, d[|t.prefix|]) == Null && Count(t, d) == 0;
    }
  }

  lemma SubscribeCountDown(t: Tree, d: Bytes, s: Bytes)
    requires WF(t) && Descends(t, d) && WF(Child(t.kids, d[|t.prefix|]))
    requires t.prefix <= s && |s| > |t.prefix| ==>
               var ch, r := Child(t.kids, d[|t.prefix|]), After(t.prefix, d);
               Count(Subscribe(ch, r), After(t.prefix, s)) == CountAfterSubscribe(ch, r, After(t.prefix, s))
    ensures Count(Subscribe(t, d), s) == CountAfterSubscribe(t, d, s)
  {
    var p, c, r := t.prefix, d[|t.prefix|], After(t.prefix, d);
    SubscribeDown(t, d);
    CountWith(t, c, Subscribe(Child(t.kids, c), r), s);
    if p <= s && |s| > |p| {
      assert d == p + d[|p|..];
      JoinCut(p, d[|p|..], s);
      PrefixJoin(p, c, [], s);
      assert p + [c] + [] == p + [c];
    }
  }

  lemma SubscribeCountSplit(t: Tree, d: Bytes, s: Bytes)
    requires WF(t) && t.Node? && Common(t.prefix, d) < |t.prefix|
    ensures Count(Subscribe(t, d), s) == if s == d then Bump(Count(t, d)) else Count(t, s)
  {
    var pos := Common(t.prefix, d);
    var n := Split(t, pos);
    SplitWF(t, pos);
    SplitMisses(t, d);
    SplitCount(t, pos, s);
    assert d == n.prefix + d[pos..];
    if d[pos..] != [] { ExtendCount(n, d[pos..], s); }
    SplitAbsent(t, d);
  }

  /** The node of d is not there before the split. */
  lemma SplitAbsent(t: Tree, d: Bytes)
    requires t.Node? && Common(t.prefix, d) < |t.prefix|
    ensures Count(t, d) == 0
  {
  }

  // ---------------------------------------------------------------- when subscribe loses a count

  /** The walk for d ends at a full sparse node that has no child for the next character and that is
      itself subscribed: the branch of line 360 taken with a non-zero refcount. */
  predicate LosesCount(t: Tree, d: Bytes)
    decreases |d|
  {
    && t.Node? && t.prefix <= d && |d| > |t.prefix|
    && var ch := Child(t.kids, d[|t.prefix|]);
       if ch.Null? then t.kids.Sparse? && |t.kids.chars| == SPARSE_MAX && t.refcount > 0
       else LosesCount(ch, d[|t.prefix| + 1..])
  }

  /** The string whose subscriptions are lost. */
  function LostString(t: Tree, d: Bytes): Bytes
    requires WF(t) && LosesCount(t, d)
    decreases |d|
  {
    var c := d[|t.prefix|];
    var ch := Child(t.kids, c);
    if ch.Null? then t.prefix else t.prefix + [c] + LostString(ch, d[|t.prefix| + 1..])
  }

  lemma {:induction false} LostStringConverts(t: Tree, d: Bytes)
    requires WF(t) && LosesCount(t, d)
    ensures Converts(t, d, LostString(t, d)) && Count(t, LostString(t, d)) > 0
    decreases |d|
  {
    if Descends(t, d) {
      var c, r := d[|t.prefix|], After(t.prefix, d);
      var x := LostString(Child(t.kids, c), r);
      LostStringConverts(Child(t.kids, c), r);
      assert LostString(t, d) == t.prefix + [c] + x;
      ConvertsBelow(t, d, x);
    }
  }

  /** What happens to a string below happens to it with the way down in front. */
  lemma ConvertsBelow(t: Tree, d: Bytes, x: Bytes)
    requires WF(t) && Descends(t, d)
    requires Converts(Child(t.kids, d[|t.prefix|]), After(t.prefix, d), x)
    requires Count(Child(t.kids, d[|t.prefix|]), x) > 0
    ensures var s := t.prefix + [d[|t.prefix|]] + x; Converts(t, d, s) && Count(t, s) > 0
  {
    var c := d[|t.prefix|];
    var s := t.prefix + [c] + x;
    assert After(t.prefix, s) == x && s[|t.prefix|] == c && t.prefix <= s;
  }

  lemma {:induction false} ConvertsLoses(t: Tree, d: Bytes, s: Bytes)
    requires WF(t) && Converts(t, d, s)
    ensures s < d && (Count(t, s) > 0 ==> LosesCount(t, d))
    decreases |d|
  {
    if Descends(t, d) {
      var p, c := t.prefix, d[|t.prefix|];
      PrefixJoin(p, c, [], s);
      assert p + [c] + [] == p + [c];
      ConvertsLoses(Child(t.kids, c), After(p, d), After(p, s));
      assert s == p + [c] + After(p, s) && d == p + [c] + After(p, d);
    }
  }

  /** The counts of t' are those of t, but for d, whose count differs by delta. */
  ghost predicate Shifted(t: Tree, t': Tree, d: Bytes, delta: int) {
    forall s :: Count(t', s) == Count(t, s) + if s == d then delta else 0
  }

  /** nn_trie_subscribe does what it promises, one more of d and nothing else changed, exactly when
      it does not convert a subscribed node and the count of d does not wrap. */
  lemma SubscribeExact(t: Tree, d: Bytes)
    requires WF(t)
    ensures Shifted(t, Subscribe(t, d), d, 1) <==> !LosesCount(t, d) && !AtLimit(t, d)
  {
    CountBound(t, d);
    if LosesCount(t, d) {
      var x := LostString(t, d);
      LostStringConverts(t, d);
      ConvertsLoses(t, d, x);
      SubscribeCount(t, d, x);
    } else if AtLimit(t, d) {
      SubscribeCount(t, d, d);
    } else {
      forall s ensures Count(Subscribe(t, d), s) == Count(t, s) + if s == d then 1 else 0 {
        SubscribeCount(t, d, s);
        if Converts(t, d, s) { ConvertsLoses(t, d, s); }
      }
    }
  }

  lemma {:induction false} CountBound(t: Tree, s: Bytes)
    requires WF(t)
    ensures Count(t, s) <= REFCOUNT_MAX
    decreases |s|
  {
    if t.Node? && t.prefix <= s && |s| > |t.prefix| {
      WFChild(t, s[|t.prefix|]);
      CountBound(Child(t.kids, s[|t.prefix|]), After(t.prefix, s));
    }
  }

  // ---------------------------------------------------------------- unsubscribe

  lemma ReleaseCount(t: Tree, s: Bytes)
    requires WF(t) && t.Node? && t.refcount > 0
    ensures Release(t).Done? && Count(t, t.prefix) == t.refcount
    ensures Count(Release(t).tree, s) == if s == t.prefix then Count(t, s) - 1 else Count(t, s)
  {
    if t.refcount == 1 {
      CompactCount(t.(refcount := 0), s);
    }
  }

  lemma ReleaseWF(t: Tree)
    requires WF(t)
    ensures Release(t).Done? && WF(Release(t).tree)
  {
    if t.Node? && t.refcount == 1 && t.kids != NO_KIDS {
      CompactWF(t.(refcount := 0));
    }
  }

  lemma PruneSparse(t: Tree, c: Byte)
    requires WF(t) && t.Node? && t.kids.Sparse? && !Child(t.kids, c).Null?
    ensures var i := Find(t.kids.chars, c);
            var k := Sparse(RemoveAt(t.kids.chars, i), RemoveAt(t.kids.subs, i));
            && Pruned(t.kids, k, c)
            && (forall j :: 0 <= j < |k.subs| ==> WF(k.subs[j]))
            && Prune(t, c) == if k.chars == [] && t.refcount == 0 then Null else Compact(t.(kids := k))
  {
    var i := Find(t.kids.chars, c);
    RemoveAtIndex(t.kids.chars, i);
    RemoveAtIndex(t.kids.subs, i);
    forall x { RemoveAtChild(t.kids.chars, t.kids.subs, c, x); }
  }

  lemma PruneWF(t: Tree, c: Byte)
    requires WF(t) && t.Node? && !Child(t.kids, c).Null?
    ensures WF(Prune(t, c))
  {
    if t.kids.Sparse? {
      PruneSparse(t, c);
      var i := Find(t.kids.chars, c);
      var k := Sparse(RemoveAt(t.kids.chars, i), RemoveAt(t.kids.subs, i));
      if k.chars != [] || t.refcount > 0 { CompactWF(t.(kids := k)); }
    } else {
      PruneDense(t, c);
      PruneDenseSubs(t, c);
    }
  }

  lemma PruneDenseSubs(t: Tree, c: Byte)
    requires WF(t) && t.Node? && t.kids.Dense? && !Child(t.kids, c).Null?
    ensures Prune(t, c).Node?
    ensures forall i :: 0 <= i < |Prune(t, c).kids.subs| ==> WF(Prune(t, c).kids.subs[i])
  {
    var cut := t.kids.subs[c - t.kids.min := Null];
    PackSubsFrom(cut);
  }

  lemma {:induction false} PackSubsFrom(subs: seq<Tree>)
    requires forall i :: 0 <= i < |subs| ==> WF(subs[i])
    ensures forall i :: 0 <= i < |PackSubs(subs)| ==> WF(PackSubs(subs)[i])
  {
    if subs != [] { PackSubsFrom(subs[..|subs| - 1]); }
  }

  /** Pruning drops the strings through c, and the node's own count when a dense node turns sparse. */
  lemma PruneCount(t: Tree, c: Byte, s: Bytes)
    requires WF(t) && t.Node? && !Child(t.kids, c).Null?
    ensures Count(Prune(t, c), s)
         == if Through(t.prefix, c, s) then 0
            else if s == t.prefix && t.kids.Dense? && t.kids.nbr <= SPARSE_MAX + 1 then 0
            else Count(t, s)
  {
    if t.kids.Sparse? {
      PruneSparse(t, c);
      var i := Find(t.kids.chars, c);
      var k := Sparse(RemoveAt(t.kids.chars, i), RemoveAt(t.kids.subs, i));
      CompactCount(t.(kids := k), s);
      if k.chars == [] { CountLeaf(t.(kids := k), s); }
    } else {
      PruneDense(t, c);
    }
  }

  lemma CountLeaf(t: Tree, s: Bytes)
    requires t.Node? && t.kids.Sparse? && t.kids.chars == []
    ensures Count(t, s) == if s == t.prefix then t.refcount else 0
  {
  }

  /** The subscription that nn_trie_unsubscribe takes away when it is asked to take away d.  It need
      not be d: line 488 accepts an exhausted string before looking at the node's prefix. */
  predicate Takes(t: Tree, d: Bytes, s: Bytes)
    decreases |d|
  {
    && t.Node?
    && if d == [] || d == t.prefix then t.refcount > 0 && s == t.prefix
       else Descends(t, d) && Through(t.prefix, d[|t.prefix|], s)
            && Takes(Child(t.kids, d[|t.prefix|]), After(t.prefix, d), After(t.prefix, s))
  }

  /** The node that this unsubscribe turns from dense to sparse (line 607), losing its own count. */
  predicate Shrinks(t: Tree, d: Bytes, s: Bytes)
    requires WF(t)
    decreases |d|
  {
    && Descends(t, d)
    && var c, r := d[|t.prefix|], After(t.prefix, d);
       var u := Unsubscribe(Child(t.kids, c), r);
       || (u.Done? && u.code != 0 && u.tree.Null?
           && t.kids.Dense? && t.kids.nbr <= SPARSE_MAX + 1 && s == t.prefix)
       || (Through(t.prefix, c, s) && Shrinks(Child(t.kids, c), r, After(t.prefix, s)))
  }

  /** The walk finds a slot for the next character; the slot may hold NULL. */
  predicate Walks(t: Tree, d: Bytes) {
    t.Node? && t.prefix <= d && |d| > |t.prefix| && HasSlot(t.kids, d[|t.prefix|])
  }

  /** The walk for d comes to a NULL pointer, the root or a hole in a dense node, with data left. */
  predicate HitsNull(t: Tree, d: Bytes)
    decreases |d|
  {
    d != [] && (t.Null? || (Walks(t, d) && HitsNull(Child(t.kids, d[|t.prefix|]), After(t.prefix, d))))
  }

  /** The data end exactly at a hole in a dense node with this many children, or more. */
  predicate EndsInHole(t: Tree, d: Bytes, nbr: int)
    decreases |d|
  {
    && d != [] && Walks(t, d)
    && var ch, r := Child(t.kids, d[|t.prefix|]), After(t.prefix, d);
       if ch.Null? then r == [] && t.kids.Dense? && t.kids.nbr >= nbr else EndsInHole(ch, r, nbr)
  }

  /** The data end at a hole, and at a hole in a node with only nine children. */
  predicate Gap(t: Tree, d: Bytes) { EndsInHole(t, d, 0) }
  predicate GapAtNine(t: Tree, d: Bytes) { Gap(t, d) && !EndsInHole(t, d, SPARSE_MAX + 2) }

  /** What becomes of the slot that the walk has found, in terms of what the recursion returns. */
  lemma UnsubscribeWalks(t: Tree, d: Bytes)
    requires WF(t) && Walks(t, d)
    ensures var c, r := d[|t.prefix|], After(t.prefix, d);
            var ch := Child(t.kids, c);
            && WF(ch) && 0 <= Slot(t.kids, c) < |t.kids.subs| && ch == t.kids.subs[Slot(t.kids, c)]
            && (ch.Null? ==> t.kids.Dense?)
            && var u := Unsubscribe(ch, r);
               Unsubscribe(t, d) ==
               if !u.Done? then u
               else if u.code == 0 || !u.tree.Null?
               then Done(if u.code == 0 then 0 else 1, t.(kids := SetSub(t.kids, Slot(t.kids, c), u.tree)))
               else if !Prunable(t, c) then Overflow
               else Done(1, Prune(t, c))
  {
    if !Child(t.kids, d[|t.prefix|]).Null? { WFReaches(t.kids, d[|t.prefix|]); }
  }

  /** Each failure, exactly: the source dereferences NULL when the walk comes to a NULL pointer with data
      left, and overruns a sparse node when the data end at a hole in a dense node with nine children. */
  lemma {:induction false} UnsubscribeFault(t: Tree, d: Bytes)
    requires WF(t)
    ensures Unsubscribe(t, d).NullRead? <==> HitsNull(t, d)
    ensures Unsubscribe(t, d).Overflow? <==> GapAtNine(t, d)
    decreases |d|
  {
    if d != [] && Walks(t, d) {
      UnsubscribeWalks(t, d);
      UnsubscribeFault(Child(t.kids, d[|t.prefix|]), After(t.prefix, d));
    }
  }

  /** At a hole in a larger dense node nothing is removed, but the node counts one child less. */
  lemma HolePrune(t: Tree, c: Byte)
    requires WF(t) && Prunable(t, c) && Child(t.kids, c).Null?
    ensures Prune(t, c) == t.(kids := t.kids.(nbr := t.kids.nbr - 1)) && !WF(Prune(t, c))
    ensures forall x :: Child(Prune(t, c).kids, x) == Child(t.kids, x)
  {
    var i := c - t.kids.min;
    assert t.kids.subs[i] == Null && t.kids.subs[i := Null] == t.kids.subs;
    assert t.kids.min < c < t.kids.max;
  }

  /** One level of the recursion of nn_node_unsubscribe. */
  lemma UnsubscribeDown(t: Tree, d: Bytes)
    requires WF(t) && Descends(t, d)
    ensures var c, ch := d[|t.prefix|], Child(t.kids, d[|t.prefix|]);
            && WF(ch) && Reaches(t.kids, c)
            && var u := Unsubscribe(ch, After(t.prefix, d));
               Unsubscribe(t, d) ==
               if !u.Done? then u
               else if u.code == 0 || !u.tree.Null?
               then Done(if u.code == 0 then 0 else 1, t.(kids := SetSub(t.kids, Slot(t.kids, c), u.tree)))
               else Done(1, Prune(t, c))
  {
    WFReaches(t.kids, d[|t.prefix|]);
  }

  lemma UnsubscribeHere(t: Tree, d: Bytes)
    requires WF(t) && !Descends(t, d)
    ensures var r := Unsubscribe(t, d);
            if d == [] || (t.Node? && d == t.prefix) then r == Release(t)
            else if HitsNull(t, d) then r == NullRead
            else if Gap(t, d) then
              var c := d[|t.prefix|];
              if Prunable(t, c) then Child(t.kids, c).Null? && r == Done(1, Prune(t, c)) else r == Overflow
            else r == Done(0, t)
  {
    if d != [] && Walks(t, d) {
      UnsubscribeWalks(t, d);
      assert HitsNull(Null, After(t.prefix, d)) <==> Unsubscribe(Null, After(t.prefix, d)) == NullRead;
    }
  }

  /** A zero code means the subtree did not vanish. */
  lemma {:induction false} ZeroKeeps(t: Tree, d: Bytes)
    requires WF(t) && Unsubscribe(t, d).Done? && Unsubscribe(t, d).code == 0
    ensures !Unsubscribe(t, d).tree.Null?
    decreases |d|
  {
    if Descends(t, d) { UnsubscribeDown(t, d); } else { UnsubscribeHere(t, d); }
  }

  /** The structure invariant survives exactly when the data do not end at a hole. */
  lemma {:induction false} UnsubscribeWF(t: Tree, d: Bytes)
    requires WF(t) && Unsubscribe(t, d).Done?
    ensures WF(Unsubscribe(t, d).tree) <==> !Gap(t, d)
    decreases |d|
  {
    if Descends(t, d) {
      var c, r := d[|t.prefix|], After(t.prefix, d);
      var ch := Child(t.kids, c);
      UnsubscribeDown(t, d);
      UnsubscribeWF(ch, r);
      if Unsubscribe(ch, r).code == 0 { ZeroKeeps(ch, r); }
      UnsubscribeWFDown(t, c, Unsubscribe(ch, r).tree);
    } else {
      UnsubscribeHere(t, d);
      ReleaseWF(t);
      if Gap(t, d) && d != t.prefix { HolePrune(t, d[|t.prefix|]); }
    }
  }

  lemma UnsubscribeWFDown(t: Tree, c: Byte, u: Tree)
    requires WF(t) && t.Node? && !Child(t.kids, c).Null?
    ensures WF(Prune(t, c)) && Reaches(t.kids, c)
    ensures !u.Null? ==> (WF(t.(kids := SetSub(t.kids, Slot(t.kids, c), u))) <==> WF(u))
  {
    WFReaches(t.kids, c);
    PruneWF(t, c);
    if !u.Null? {
      if WF(u) { WFWith(t, c, u); }
      var t' := t.(kids := SetSub(t.kids, Slot(t.kids, c), u));
      assert t'.kids.subs[Slot(t.kids, c)] == u;
    }
  }

  function CountAfterUnsubscribe(t: Tree, d: Bytes, s: Bytes): int
    requires WF(t)
  {
    if Shrinks(t, d, s) then 0 else if Takes(t, d, s) then Count(t, s) - 1 else Count(t, s)
  }

  /** nn_trie_unsubscribe takes one from the count of the one string it takes away, and leaves every
      other count alone through pruning, compaction and trimming, except that a dense node that
      turns sparse (line 607) loses its own count.  That holds of every call that returns. */
  lemma {:induction false} UnsubscribeCount(t: Tree, d: Bytes, s: Bytes)
    requires WF(t) && Unsubscribe(t, d).Done?
    ensures Count(Unsubscribe(t, d).tree, s)
         == if Shrinks(t, d, s) then 0 else if Takes(t, d, s) then Count(t, s) - 1 else Count(t, s)
    decreases |d|
  {
    if Descends(t, d) {
      var ch, r := Child(t.kids, d[|t.prefix|]), After(t.prefix, d);
      UnsubscribeDown(t, d);
      if Through(t.prefix, d[|t.prefix|], s) {
        UnsubscribeCount(ch, r, After(t.prefix, s));
      }
      UnsubscribeCountDown(t, d, s);
    } else {
      UnsubscribeHere(t, d);
      if t.Node? && t.refcount > 0 { ReleaseCount(t, s); }
      if Gap(t, d) && d != t.prefix {
        HolePrune(t, d[|t.prefix|]);
        CountSame(Unsubscribe(t, d).tree, t, s);
      }
    }
  }

  lemma UnsubscribeCountDown(t: Tree, d: Bytes, s: Bytes)
    requires WF(t) && Descends(t, d) && WF(Child(t.kids, d[|t.prefix|])) && Unsubscribe(t, d).Done?
    requires var ch, r := Child(t.kids, d[|t.prefix|]), After(t.prefix, d);
             && Unsubscribe(ch, r).Done?
             && (Through(t.prefix, d[|t.prefix|], s) ==>
                   Count(Unsubscribe(ch, r).tree, After(t.prefix, s))
                   == CountAfterUnsubscribe(ch, r, After(t.prefix, s)))
    ensures Count(Unsubscribe(t, d).tree, s) == CountAfterUnsubscribe(t, d, s)
  {
    var c, r := d[|t.prefix|], After(t.prefix, d);
    var u := Unsubscribe(Child(t.kids, c), r);
    UnsubscribeDown(t, d);
    if u.code == 0 || !u.tree.Null? {
      CountWith(t, c, u.tree, s);
    } else {
      PruneCount(t, c, s);
    }
  }

  // ---------------------------------------------------------------- no bare leaves

  /** No leaf without a subscription: at or below every node there is a subscribed string. */
  lemma {:induction false} NodeHasSubscription(t: Tree) returns (s: Bytes)
    requires WF(t) && t.Node?
    ensures Count(t, s) > 0
    decreases t, 1
  {
    if t.refcount > 0 {
      s := t.prefix;
    } else {
      var tail := SubscriptionBelow(t);
      s := t.prefix + tail;
    }
  }

  lemma {:induction false} SubscriptionBelow(t: Tree) returns (tail: Bytes)
    requires WF(t) && t.Node? && t.refcount == 0
    ensures tail != [] && Count(Child(t.kids, tail[0]), tail[1..]) > 0
    ensures Count(t, t.prefix + tail) > 0
    decreases t, 0
  {
    var c: Byte := if t.kids.Sparse? then t.kids.chars[0] else t.kids.min;
    if t.kids.Sparse? { FindIs(t.kids.chars, 0); }
    var x := NodeHasSubscription(t.kids.subs[0]);
    tail := [c] + x;
    assert (t.prefix + tail)[|t.prefix|] == c && After(t.prefix, t.prefix + tail) == x;
  }
}
