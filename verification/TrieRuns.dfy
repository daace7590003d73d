/** What unsubscribe does for a string that is, or is not, subscribed; and runs of any length:
    the trie refines a multiset of byte strings. */
module TrieRuns {
  import opened Wire
  import opened TrieModel
  import opened TrieKids
  import opened TrieTheory

  // ---------------------------------------------------------------- emptiness

  /** The root is NULL exactly when nothing is subscribed. */
  lemma NullIffEmpty(t: Tree)
    requires WF(t)
    ensures t.Null? <==> forall s :: Count(t, s) == 0
  {
    if t.Node? { var s := NodeHasSubscription(t); }
  }

  // ---------------------------------------------------------------- a subscribed string

  /** Every unsubscribe problem but the reset at line 607 vanishes when d is subscribed: the call
      reaches the node of d, takes d and nothing else, and returns 1 exactly when that was the last. */
  lemma {:induction false} UnsubscribeSubscribed(t: Tree, d: Bytes)
    requires WF(t) && Count(t, d) > 0
    ensures Unsubscribe(t, d).Done?
    ensures Unsubscribe(t, d).code == if Count(t, d) == 1 then 1 else 0
    decreases |d|
  {
    if Descends(t, d) {
      UnsubscribeDown(t, d);
      UnsubscribeSubscribed(Child(t.kids, d[|t.prefix|]), After(t.prefix, d));
    } else {
      UnsubscribeHere(t, d);
    }
  }

  lemma {:induction false} SubscribedTakes(t: Tree, d: Bytes, s: Bytes)
    requires WF(t) && Count(t, d) > 0
    ensures Takes(t, d, s) <==> s == d
    decreases |d|
  {
    if Descends(t, d) {
      var p, c := t.prefix, d[|t.prefix|];
      assert d == p + d[|p|..];
      if Through(p, c, s) {
        JoinCut(p, d[|p|..], s);
        SubscribedTakes(Child(t.kids, c), After(p, d), After(p, s));
      }
    }
  }

  /** The trie holds one subscription, to s, and no other. */
  ghost predicate Single(t: Tree, s: Bytes) {
    forall x :: Count(t, x) == if x == s then 1 else 0
  }

  /** The walk to d passes a subscribed dense node with nine children, and the child it takes holds nothing
      but this one subscription. */
  ghost predicate ShrinkLoses(t: Tree, d: Bytes)
    decreases |d|
  {
    && Descends(t, d)
    && var ch, r := Child(t.kids, d[|t.prefix|]), After(t.prefix, d);
       || (t.kids.Dense? && t.kids.nbr == SPARSE_MAX + 1 && t.refcount > 0 && Single(ch, r))
       || ShrinkLoses(ch, r)
  }

  /** A node that turns sparse stays, and so do those above it. */
  lemma {:induction false} ShrinksStays(t: Tree, d: Bytes, s: Bytes)
    requires WF(t) && Shrinks(t, d, s) && Unsubscribe(t, d).Done?
    ensures !Unsubscribe(t, d).tree.Null?
    decreases |d|
  {
    var p, c, r := t.prefix, d[|t.prefix|], After(t.prefix, d);
    UnsubscribeDown(t, d);
    if Through(p, c, s) && Shrinks(Child(t.kids, c), r, After(p, s)) {
      ShrinksStays(Child(t.kids, c), r, After(p, s));
    }
  }

  lemma {:induction false} SubscribedEnds(t: Tree, d: Bytes)
    requires Count(t, d) > 0
    ensures !HitsNull(t, d) && !Gap(t, d)
    decreases |d|
  {
    if d != [] && Walks(t, d) { SubscribedEnds(Child(t.kids, d[|t.prefix|]), After(t.prefix, d)); }
  }

  /** What is left of a trie when a subscription is taken away, provided no node is left of it. */
  lemma NothingLeft(t: Tree, d: Bytes, s: Bytes)
    requires WF(t) && Count(t, d) > 0 && Unsubscribe(t, d).Done?
    ensures Unsubscribe(t, d).tree.Null? ==> Count(t, s) == if s == d then 1 else 0
    ensures Single(t, d) ==> Count(Unsubscribe(t, d).tree, s) == 0
  {
    UnsubscribeCount(t, d, s);
    UnsubscribeSubscribed(t, d);
    SubscribedTakes(t, d, s);
    if Shrinks(t, d, s) { ShrinksStays(t, d, s); }
  }

  /** A trie vanishes with a subscription exactly when it holds no other. */
  lemma Vanishes(t: Tree, d: Bytes)
    requires WF(t) && Count(t, d) > 0
    ensures Unsubscribe(t, d).Done?
    ensures Unsubscribe(t, d).tree.Null? <==> Single(t, d)
  {
    UnsubscribeSubscribed(t, d);
    UnsubscribeWF(t, d);
    SubscribedEnds(t, d);
    forall s { NothingLeft(t, d, s); }
    NullIffEmpty(Unsubscribe(t, d).tree);
  }

  lemma {:induction false} ShrinkLosesOne(t: Tree, d: Bytes) returns (s: Bytes)
    requires WF(t) && ShrinkLoses(t, d) && Count(t, d) > 0
    ensures Shrinks(t, d, s) && Count(t, s) > 0
    decreases |d|
  {
    var p, c, r := t.prefix, d[|t.prefix|], After(t.prefix, d);
    Vanishes(Child(t.kids, c), r);
    UnsubscribeSubscribed(Child(t.kids, c), r);
    if ShrinkLoses(Child(t.kids, c), r) {
      var x := ShrinkLosesOne(Child(t.kids, c), r);
      s := p + [c] + x;
      PrefixJoin(p, c, x, s);
      assert After(p, s) == x;
    } else {
      s := p;
    }
  }

  lemma {:induction false} ShrinksAbove(t: Tree, d: Bytes, s: Bytes)
    requires WF(t) && Shrinks(t, d, s)
    ensures s < d
    decreases |d|
  {
    var p, c := t.prefix, d[|t.prefix|];
    if Through(p, c, s) && Shrinks(Child(t.kids, c), After(p, d), After(p, s)) {
      ShrinksAbove(Child(t.kids, c), After(p, d), After(p, s));
      assert s == p + [c] + After(p, s) && d == p + [c] + After(p, d);
    }
  }

  lemma {:induction false} ShrinksLoses(t: Tree, d: Bytes, s: Bytes)
    requires WF(t) && Shrinks(t, d, s) && Count(t, d) > 0 && Count(t, s) > 0
    ensures ShrinkLoses(t, d)
    decreases |d|
  {
    var p, c := t.prefix, d[|t.prefix|];
    Vanishes(Child(t.kids, c), After(p, d));
    if Through(p, c, s) && Shrinks(Child(t.kids, c), After(p, d), After(p, s)) {
      ShrinksLoses(Child(t.kids, c), After(p, d), After(p, s));
    }
  }

  /** Unsubscribing a subscribed string removes exactly one of it, and nothing else, exactly when no
      subscribed node falls back from dense to sparse. */
  lemma UnsubscribeExact(t: Tree, d: Bytes)
    requires WF(t) && Count(t, d) > 0
    ensures Unsubscribe(t, d).Done?
    ensures Shifted(t, Unsubscribe(t, d).tree, d, -1) <==> !ShrinkLoses(t, d)
  {
    UnsubscribeSubscribed(t, d);
    if ShrinkLoses(t, d) {
      var x := ShrinkLosesOne(t, d);
      ShrinksAbove(t, d, x);
      UnsubscribeCount(t, d, x);
    } else {
      forall s ensures Count(Unsubscribe(t, d).tree, s) == Count(t, s) + if s == d then -1 else 0 {
        UnsubscribeCount(t, d, s);
        SubscribedTakes(t, d, s);
        if Shrinks(t, d, s) && Count(t, s) > 0 { ShrinksLoses(t, d, s); }
        if Shrinks(t, d, s) { ShrinksAbove(t, d, s); }
      }
    }
  }

  // ---------------------------------------------------------------- a string that is not subscribed

  /** The data runs out on the edge to a subscribed node whose prefix is not empty; line 488 takes
      that node for the one it looks for. */
  predicate Robs(t: Tree, d: Bytes)
    decreases |d|
  {
    && t.Node?
    && if d == [] then t.prefix != [] && t.refcount > 0
       else Descends(t, d) && Robs(Child(t.kids, d[|t.prefix|]), After(t.prefix, d))
  }

  lemma {:induction false} RobsOne(t: Tree, d: Bytes) returns (s: Bytes)
    requires WF(t) && Robs(t, d)
    ensures Takes(t, d, s) && Count(t, s) > 0 && d < s
    decreases |d|
  {
    if d == [] {
      s := t.prefix;
    } else {
      var p, c := t.prefix, d[|t.prefix|];
      var x := RobsOne(Child(t.kids, c), After(p, d));
      s := p + [c] + x;
      assert After(p, s) == x;
      assert d == p + [c] + After(p, d);
      PrefixJoin(p, c, x, s);
    }
  }

  lemma {:induction false} RobsReturns(t: Tree, d: Bytes)
    requires WF(t) && Robs(t, d)
    ensures Unsubscribe(t, d).Done? && forall s :: !Shrinks(t, d, s) || s < d
    decreases |d|
  {
    if d != [] {
      UnsubscribeDown(t, d);
      RobsReturns(Child(t.kids, d[|t.prefix|]), After(t.prefix, d));
    }
    forall s | Shrinks(t, d, s) { ShrinksAbove(t, d, s); }
  }

  /** The call can do no harm: the walk does not come to a NULL pointer, and does not end at a hole or on
      the edge to a subscribed node. */
  predicate Harmless(t: Tree, d: Bytes) { !HitsNull(t, d) && !Gap(t, d) && !Robs(t, d) }

  lemma {:induction false} AbsentUntouched(t: Tree, d: Bytes)
    requires WF(t) && Count(t, d) == 0 && Harmless(t, d)
    ensures Unsubscribe(t, d).Done? && Unsubscribe(t, d).tree == t
    decreases |d|
  {
    if Descends(t, d) {
      var c := d[|t.prefix|];
      UnsubscribeDown(t, d);
      AbsentUntouched(Child(t.kids, c), After(t.prefix, d));
      assert t.kids == SetSub(t.kids, Slot(t.kids, c), Child(t.kids, c));
    } else {
      UnsubscribeHere(t, d);
    }
  }

  /** For a string without a subscription the call returns, leaves a well-formed trie and changes no count
      exactly when it is harmless. */
  lemma UnsubscribeAbsent(t: Tree, d: Bytes)
    requires WF(t) && Count(t, d) == 0
    ensures var r := Unsubscribe(t, d);
            (r.Done? && WF(r.tree) && forall s :: Count(r.tree, s) == Count(t, s)) <==> Harmless(t, d)
  {
    UnsubscribeFault(t, d);
    if Harmless(t, d) {
      AbsentUntouched(t, d);
    } else if Unsubscribe(t, d).Done? {
      UnsubscribeWF(t, d);
      if Robs(t, d) {
        var x := RobsOne(t, d);
        RobsReturns(t, d);
        UnsubscribeCount(t, d, x);
      }
    }
  }

  /** At a hole in a dense node with more than nine children the call returns, reports a removal, and
      changes no count; only the node's own number of children is wrong from then on. */
  lemma UnsubscribeGap(t: Tree, d: Bytes)
    requires WF(t) && Gap(t, d) && !GapAtNine(t, d)
    ensures Count(t, d) == 0 && Unsubscribe(t, d).Done? && Unsubscribe(t, d).code == 1
    ensures !WF(Unsubscribe(t, d).tree) && forall s :: Count(Unsubscribe(t, d).tree, s) == Count(t, s)
  {
    UnsubscribeFault(t, d);
    GapMisses(t, d);
    UnsubscribeWF(t, d);
    forall s ensures Count(Unsubscribe(t, d).tree, s) == Count(t, s) {
      UnsubscribeCount(t, d, s);
      GapTakesNothing(t, d, s);
    }
  }

  lemma {:induction false} GapMisses(t: Tree, d: Bytes)
    requires WF(t) && Gap(t, d)
    ensures Count(t, d) == 0 && !HitsNull(t, d)
    ensures Unsubscribe(t, d).Done? ==> Unsubscribe(t, d).code == 1 && !Unsubscribe(t, d).tree.Null?
    decreases |d|
  {
    var c := d[|t.prefix|];
    UnsubscribeWalks(t, d);
    if Child(t.kids, c).Null? {
      if Prunable(t, c) { HolePrune(t, c); }
    } else {
      GapMisses(Child(t.kids, c), After(t.prefix, d));
    }
  }

  lemma {:induction false} GapTakesNothing(t: Tree, d: Bytes, s: Bytes)
    requires WF(t) && Gap(t, d)
    ensures !Takes(t, d, s) && !Shrinks(t, d, s)
    decreases |d|
  {
    if Descends(t, d) {
      var ch, r := Child(t.kids, d[|t.prefix|]), After(t.prefix, d);
      GapMisses(ch, r);
      if Through(t.prefix, d[|t.prefix|], s) { GapTakesNothing(ch, r, After(t.prefix, s)); }
    }
  }

  /** The data end where a node begins or where its prefix ends; line 488 takes both for the end of a
      subscription. */
  predicate Ends(t: Tree, d: Bytes)
    decreases |d|
  {
    d == [] || (t.Node? && (d == t.prefix || (Walks(t, d) && Ends(Child(t.kids, d[|t.prefix|]), After(t.prefix, d)))))
  }

  /** The return code for a string without a subscription that is not taken for another one: the code is
      -EINVAL when the walk ends at the root, but 1, as for a removal, when it ends further down, because
      line 510 takes every other code than 0 for a removal; and 0 when the walk does not end at a node. */
  lemma {:induction false} AbsentCode(t: Tree, d: Bytes)
    requires WF(t) && Count(t, d) == 0 && !Robs(t, d) && Unsubscribe(t, d).Done?
    ensures Unsubscribe(t, d).code ==
            if !Ends(t, d) then 0 else if d == [] || (t.Node? && d == t.prefix) then -EINVAL else 1
    decreases |d|
  {
    if d != [] && Walks(t, d) {
      UnsubscribeWalks(t, d);
      AbsentCode(Child(t.kids, d[|t.prefix|]), After(t.prefix, d));
      if Unsubscribe(Child(t.kids, d[|t.prefix|]), After(t.prefix, d)).code == 0 {
        if Descends(t, d) { ZeroKeeps(Child(t.kids, d[|t.prefix|]), After(t.prefix, d)); }
      }
    }
  }

  // ---------------------------------------------------------------- runs

  datatype Op = Sub(data: Bytes) | Unsub(data: Bytes)

  function Apply(t: Tree, op: Op): Tree
    requires WF(t) && (op.Unsub? ==> Unsubscribe(t, op.data).Done?)
  {
    match op
    case Sub(d) => Subscribe(t, d)
    case Unsub(d) => Unsubscribe(t, d).tree
  }

  /** The calls a program may make: subscribe, but not for the 2^32nd time at a node without children, and
      unsubscribe what is subscribed, or what does no harm. */
  predicate Legal(t: Tree, op: Op) {
    match op
    case Sub(d) => !Hollows(t, d)
    case Unsub(d) => Count(t, d) > 0 || Harmless(t, d)
  }

  /** The two conversions that drop a subscribed node's count, and a count that wraps. */
  ghost predicate Loses(t: Tree, op: Op) {
    match op
    case Sub(d) => LosesCount(t, d) || AtLimit(t, d)
    case Unsub(d) => Count(t, d) > 0 && ShrinkLoses(t, d)
  }

  lemma ApplyWF(t: Tree, op: Op)
    requires WF(t) && Legal(t, op)
    ensures (op.Unsub? ==> Unsubscribe(t, op.data).Done?) && WF(Apply(t, op))
  {
    match op
    case Sub(d) => SubscribeWF(t, d);
    case Unsub(d) =>
      if Count(t, d) > 0 {
        UnsubscribeSubscribed(t, d);
        SubscribedEnds(t, d);
        UnsubscribeWF(t, d);
      } else {
        AbsentUntouched(t, d);
      }
  }

  /** ts is a run of the trie under ops, from a well-formed trie.  (That the operations are defined is what
      RunWF shows.) */
  ghost predicate Run(ts: seq<Tree>, ops: seq<Op>) {
    && |ts| == |ops| + 1
    && WF(ts[0])
    && forall i :: 0 <= i < |ops| ==>
         && Legal(ts[i], ops[i])
         && (WF(ts[i]) && (ops[i].Unsub? ==> Unsubscribe(ts[i], ops[i].data).Done?) ==>
               ts[i + 1] == Apply(ts[i], ops[i]))
  }

  function IdealStep(m: multiset<Bytes>, op: Op): multiset<Bytes> {
    match op
    case Sub(d) => m + multiset{d}
    case Unsub(d) => m - multiset{d}
  }

  function Ideal(m: multiset<Bytes>, ops: seq<Op>): multiset<Bytes> {
    if ops == [] then m else IdealStep(Ideal(m, ops[..|ops| - 1]), ops[|ops| - 1])
  }

  ghost predicate Represents(t: Tree, m: multiset<Bytes>) {
    WF(t) && forall s :: Count(t, s) == m[s]
  }

  /** One step of the refinement; the converse shows that conversions and the wrap are the only trouble. */
  lemma StepRefines(t: Tree, m: multiset<Bytes>, op: Op)
    requires Represents(t, m) && Legal(t, op)
    ensures op.Unsub? ==> Unsubscribe(t, op.data).Done?
    ensures Represents(Apply(t, op), IdealStep(m, op)) <==> !Loses(t, op)
  {
    ApplyWF(t, op);
    match op
    case Sub(d) =>
      SubscribeExact(t, d);
      SameMultiset(t, m, Subscribe(t, d), m + multiset{d}, d, 1);
    case Unsub(d) =>
      if Count(t, d) > 0 {
        UnsubscribeExact(t, d);
        SameMultiset(t, m, Unsubscribe(t, d).tree, m - multiset{d}, d, -1);
      } else {
        AbsentUntouched(t, d);
        assert m - multiset{d} == m;
      }
  }

  lemma SameMultiset(t: Tree, m: multiset<Bytes>, t': Tree, m': multiset<Bytes>, d: Bytes, delta: int)
    requires Represents(t, m) && WF(t') && forall s :: m'[s] == m[s] + if s == d then delta else 0
    ensures Represents(t', m') <==> Shifted(t, t', d, delta)
  {
    assert forall s :: Count(t, s) == m[s];
    if Represents(t', m') {
      assert forall s :: Count(t', s) == m'[s];
      assert Shifted(t, t', d, delta);
    }
  }

  /** Every trie of every run that starts at a well-formed trie is well-formed, and every call in it returns. */
  lemma {:induction false} RunWF(ts: seq<Tree>, ops: seq<Op>, i: nat)
    requires Run(ts, ops) && i < |ts|
    ensures WF(ts[i])
    ensures i < |ops| ==> (ops[i].Unsub? ==> Unsubscribe(ts[i], ops[i].data).Done?) && ts[i + 1] == Apply(ts[i], ops[i])
  {
    if i > 0 {
      RunWF(ts, ops, i - 1);
      ApplyWF(ts[i - 1], ops[i - 1]);
    }
    if i < |ops| { ApplyWF(ts[i], ops[i]); }
  }

  /** Over any run in which no conversion hits a subscribed node and no count wraps, the trie stands for exactly the
      multiset of the strings subscribed so far and not yet unsubscribed. */
  lemma {:induction false} RunRefines(ts: seq<Tree>, ops: seq<Op>, m: multiset<Bytes>, n: nat)
    requires Run(ts, ops) && Represents(ts[0], m) && n <= |ops|
    requires forall i :: 0 <= i < n ==> !Loses(ts[i], ops[i])
    ensures Represents(ts[n], Ideal(m, ops[..n]))
    ensures ts[n].Null? <==> Ideal(m, ops[..n]) == multiset{}
  {
    var m' := Ideal(m, ops[..n]);
    if n > 0 {
      RunRefines(ts, ops, m, n - 1);
      RunWF(ts, ops, n - 1);
      assert ops[..n][..n - 1] == ops[..n - 1];
      StepRefines(ts[n - 1], Ideal(m, ops[..n - 1]), ops[n - 1]);
    }
    NullIffEmpty(ts[n]);
    if m' != multiset{} {
      var s :| s in m';
      assert Count(ts[n], s) > 0;
    }
  }
}
