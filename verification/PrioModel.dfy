/** The prioritised list of pipes behind load balancer and fair queue (protocols/utils/priolist.c), as
    a value, and what it means for the pipes that wait in it. */
module PrioModel {
  import opened Seqs

  const SLOTS := 16

  /** struct nn_priolist_slot: the list of pipes is before + after, the current one is after[0]; there
      is no current one only when the list is empty. */
  datatype Slot<T> = Slot(before: seq<T>, after: seq<T>) {
    predicate Empty() { after == [] }

    function Pipes(): seq<T> { before + after }

    /** The pipes in the order in which plain advances return them. */
    function Ring(): seq<T> { after + before }
  }

  /** The current pointer has moved off the end of the list: wrap over. */
  function Wrap<T>(before: seq<T>, after: seq<T>): (s: Slot<T>)
    ensures s.Ring() == after + before
    ensures s.Empty() ==> s.before == []
  {
    if after == [] then Slot([], before) else Slot(before, after)
  }

  /** The slots by priority, 1 first, and the current priority or -1. */
  datatype Prio<T> = Prio(slots: seq<Slot<T>>, current: int)

  datatype Op<T> = Activate(pipe: T, priority: int) | Remove(pipe: T, priority: int) | Advance(release: bool)

  function SlotAdd<T>(s: Slot<T>, p: T): Slot<T> {
    Slot(s.before, s.after + [p])
  }

  function SlotRemove<T(==)>(s: Slot<T>, p: T): Slot<T> {
    if s.Empty() then s
    else if s.after[0] == p then Wrap(s.before, s.after[1..])
    else if p in s.before then Slot(Erase(s.before, p), s.after)
    else Slot(s.before, [s.after[0]] + Erase(s.after[1..], p))
  }

  function SlotAdvance<T>(s: Slot<T>, release: bool): Slot<T>
    requires !s.Empty()
  {
    Wrap(if release then s.before else s.before + [s.after[0]], s.after[1..])
  }

  /** The loops at lines 95-101 and 168-175: from this priority on, the first slot with a pipe. */
  function Seek<T>(slots: seq<Slot<T>>, from: int): int
    requires 1 <= from
    decreases |slots| - from
  {
    if from > |slots| then -1
    else if !slots[from - 1].Empty() then from
    else Seek(slots, from + 1)
  }

  predicate Valid<T>(op: Op<T>) { op.Advance? || 1 <= op.priority <= SLOTS }

  /** What an operation finds: the pipe is not, or is, in the list, and there is a pipe to advance
      from. */
  predicate Fits<T(==)>(x: Prio<T>, op: Op<T>) {
    && |x.slots| == SLOTS && Valid(op)
    && match op
       case Activate(p, i) => forall j :: 0 <= j < SLOTS ==> p !in x.slots[j].Pipes()
       case Remove(p, i) => true
       case Advance(_) => x.current != -1
  }

  /** nn_priolist_activate, nn_priolist_rm and nn_priolist_advance. */
  function Apply<T(==)>(x: Prio<T>, op: Op<T>): Prio<T>
    requires Fits(x, op) && (x.current == -1 || 1 <= x.current <= SLOTS)
    requires op.Advance? ==> !x.slots[x.current - 1].Empty()
  {
    match op
    case Activate(p, i) =>
      var s := x.slots[i - 1];
      Prio(x.slots[i - 1 := SlotAdd(s, p)],
           if s.Empty() && (x.current == -1 || x.current > i) then i else x.current)
    case Remove(p, i) =>
      var s := x.slots[i - 1];
      var slots := x.slots[i - 1 := SlotRemove(s, p)];
      Prio(slots, if !s.Empty() && s.after[0] == p && x.current == i then Seek(slots, i) else x.current)
    case Advance(release) =>
      var i := x.current;
      var slots := x.slots[i - 1 := SlotAdvance(x.slots[i - 1], release)];
      Prio(slots, Seek(slots, i))
  }

  // ---------------------------------------------------------------- the invariant

  /** The current priority is -1 when all slots are empty, and otherwise that of the first slot that is
      not. */
  predicate CurrentIsFirst<T>(x: Prio<T>) {
    if x.current == -1 then forall i :: 0 <= i < |x.slots| ==> x.slots[i].Empty()
    else
      && 1 <= x.current <= |x.slots| && !x.slots[x.current - 1].Empty()
      && forall i :: 0 <= i < x.current - 1 ==> x.slots[i].Empty()
  }

  predicate Distinct<T(==)>(q: seq<T>) {
    forall p :: p in q ==> multiset(q)[p] == 1
  }

  predicate SlotOk<T(==)>(s: Slot<T>) {
    (s.Empty() ==> s.before == []) && Distinct(s.Ring())
  }

  /** A pipe is in one slot only. */
  ghost predicate Exclusive<T>(slots: seq<Slot<T>>) {
    forall i, j, p :: 0 <= i < |slots| && 0 <= j < |slots| && p in slots[i].Ring() && p in slots[j].Ring() ==> i == j
  }

  predicate Shape<T(==)>(x: Prio<T>) {
    && |x.slots| == SLOTS
    && CurrentIsFirst(x)
    && forall i :: 0 <= i < SLOTS ==> SlotOk(x.slots[i])
  }

  ghost predicate Inv<T>(x: Prio<T>) { Shape(x) && Exclusive(x.slots) }

  function Start<T>(): Prio<T> { Prio(seq(SLOTS, _ => Slot([], [])), -1) }

  lemma StartInv<T>()
    ensures Inv(Start<T>())
  {
  }

  lemma {:induction false} SeekFirst<T>(slots: seq<Slot<T>>, from: int)
    requires 1 <= from <= |slots| + 1
    requires forall i :: 0 <= i < from - 1 ==> slots[i].Empty()
    ensures CurrentIsFirst(Prio(slots, Seek(slots, from)))
    decreases |slots| - from
  {
    if from <= |slots| && slots[from - 1].Empty() {
      SeekFirst(slots, from + 1);
    }
  }

  lemma DistinctWithin<T>(q: seq<T>, r: seq<T>)
    requires Distinct(q) && multiset(r) <= multiset(q)
    ensures Distinct(r)
  {
    forall p | p in r ensures multiset(r)[p] == 1 {
      assert p in multiset(r) && p in multiset(q) && p in q;
    }
  }

  lemma EraseDistinct<T>(q: seq<T>, p: T)
    requires Distinct(q)
    ensures Distinct(Erase(q, p)) && p !in Erase(q, p)
    ensures forall x :: x in Erase(q, p) <==> x in q && x != p
  {
    EraseSpec(q, p);
    var r := Erase(q, p);
    forall x ensures x in q <==> x in multiset(q) {}
    forall x ensures x in r <==> x in multiset(r) {}
  }

  /** A pipe is on one side of the current one only. */
  lemma OneSide<T>(s: Slot<T>, p: T)
    requires SlotOk(s) && !s.Empty() && p in s.before
    ensures p !in s.after
  {
    assert p in s.Ring() && p in multiset(s.before);
    assert multiset(s.Ring()) == multiset(s.after) + multiset(s.before);
    assert multiset(s.after)[p] == 0;
  }

  lemma RemoveIs<T>(s: Slot<T>, p: T)
    requires SlotOk(s)
    ensures SlotRemove(s, p).Ring() == Erase(s.Ring(), p)
  {
    if !s.Empty() {
      EraseAppend(s.after, s.before, p);
      if s.after[0] != p {
        if p in s.before {
          OneSide(s, p);
        } else {
          EraseAbsent(s.before, p);
          if p !in s.after { EraseAbsent(s.after, p); }
        }
      }
    }
  }

  /** Removing a pipe takes it out of the ring and changes nothing about the order of the others. */
  lemma RemoveRing<T>(s: Slot<T>, p: T)
    requires SlotOk(s)
    ensures SlotRemove(s, p).Ring() == Erase(s.Ring(), p)
    ensures SlotOk(SlotRemove(s, p))
  {
    RemoveIs(s, p);
    EraseDistinct(s.Ring(), p);
  }

  /** Advancing takes the first pipe off the ring, and puts it back at the end unless it is released. */
  lemma AdvanceRing<T>(s: Slot<T>, release: bool)
    requires SlotOk(s) && !s.Empty()
    ensures var r := s.Ring();
            SlotAdvance(s, release).Ring() == r[1..] + if release then [] else [r[0]]
    ensures SlotOk(SlotAdvance(s, release))
  {
    var r, r' := s.Ring(), SlotAdvance(s, release).Ring();
    assert r == [r[0]] + r[1..];
    assert r' == r[1..] + if release then [] else [r[0]] by {
      assert r[1..] == s.after[1..] + s.before;
    }
    assert multiset(r') <= multiset(r) by {
      assert multiset(r') == multiset(r[1..]) + multiset(if release then [] else [r[0]]);
      assert multiset(r) == multiset([r[0]]) + multiset(r[1..]);
    }
    DistinctWithin(r, r');
  }

  /** A pipe that becomes active goes to the end of the list, which is in the ring before the pipes that
      precede the current one. */
  lemma AddRing<T>(s: Slot<T>, p: T)
    requires SlotOk(s) && p !in s.Pipes()
    ensures SlotAdd(s, p).Ring() == s.after + [p] + s.before && SlotOk(SlotAdd(s, p))
  {
    assert multiset(s.after + [p] + s.before) == multiset(s.Ring()) + multiset{p};
    assert forall x :: x in s.Ring() <==> x in s.Pipes();
  }

  /** A slot that has lost pipes, or got one that no other slot has. */
  lemma StaysExclusive<T>(slots: seq<Slot<T>>, i: nat, s: Slot<T>, added: set<T>)
    requires Exclusive(slots) && i < |slots|
    requires forall p :: p in s.Ring() ==> p in slots[i].Ring() || p in added
    requires forall p, j :: p in added && 0 <= j < |slots| ==> p !in slots[j].Ring()
    ensures Exclusive(slots[i := s])
  {
  }

  lemma ActivateShape<T>(x: Prio<T>, p: T, i: int)
    requires Shape(x) && Fits(x, Activate(p, i))
    ensures Shape(Apply(x, Activate(p, i)))
  {
    AddRing(x.slots[i - 1], p);
  }

  lemma RemoveShape<T>(x: Prio<T>, p: T, i: int)
    requires Shape(x) && Fits(x, Remove(p, i))
    ensures Shape(Apply(x, Remove(p, i)))
  {
    RemoveRing(x.slots[i - 1], p);
    RemoveCurrent(x, p, i);
  }

  lemma AdvanceShape<T>(x: Prio<T>, release: bool)
    requires Shape(x) && Fits(x, Advance(release))
    ensures Shape(Apply(x, Advance(release)))
  {
    AdvanceRing(x.slots[x.current - 1], release);
    SeekFirst(Apply(x, Advance(release)).slots, x.current);
  }

  lemma RemoveCurrent<T>(x: Prio<T>, p: T, i: int)
    requires Shape(x) && 1 <= i <= SLOTS
    ensures CurrentIsFirst(Apply(x, Remove(p, i)))
  {
    var s := x.slots[i - 1];
    if !s.Empty() && s.after[0] == p && x.current == i {
      SeekFirst(Apply(x, Remove(p, i)).slots, i);
    }
  }

  lemma ActivateExclusive<T>(x: Prio<T>, p: T, i: int)
    requires Inv(x) && Fits(x, Activate(p, i))
    ensures Exclusive(Apply(x, Activate(p, i)).slots)
  {
    forall j | 0 <= j < SLOTS ensures p !in x.slots[j].Ring() {
      assert p !in x.slots[j].Pipes();
    }
    AddRing(x.slots[i - 1], p);
    StaysExclusive(x.slots, i - 1, SlotAdd(x.slots[i - 1], p), {p});
  }

  lemma RemoveWithin<T>(s: Slot<T>, p: T)
    requires SlotOk(s)
    ensures forall q :: q in SlotRemove(s, p).Ring() ==> q in s.Ring()
  {
    RemoveIs(s, p);
    EraseDistinct(s.Ring(), p);
    forall q | q in SlotRemove(s, p).Ring() ensures q in s.Ring() {
      assert q in Erase(s.Ring(), p);
    }
  }

  lemma RemoveExclusive<T>(x: Prio<T>, p: T, i: int)
    requires Inv(x) && Fits(x, Remove(p, i))
    ensures Exclusive(Apply(x, Remove(p, i)).slots)
  {
    RemoveWithin(x.slots[i - 1], p);
    StaysExclusive(x.slots, i - 1, SlotRemove(x.slots[i - 1], p), {});
  }

  lemma AdvanceExclusive<T>(x: Prio<T>, release: bool)
    requires Inv(x) && Fits(x, Advance(release))
    ensures Exclusive(Apply(x, Advance(release)).slots)
  {
    var s := x.slots[x.current - 1];
    AdvanceRing(s, release);
    StaysExclusive(x.slots, x.current - 1, SlotAdvance(s, release), {});
  }

  /** The invariant of every reachable state; it is also why nn_priolist_getpipe finds a pipe. */
  lemma ApplyKeeps<T>(x: Prio<T>, op: Op<T>)
    requires Inv(x) && Fits(x, op)
    ensures Inv(Apply(x, op))
  {
    match op
    case Activate(p, i) => ActivateShape(x, p, i); ActivateExclusive(x, p, i);
    case Remove(p, i) => RemoveShape(x, p, i); RemoveExclusive(x, p, i);
    case Advance(release) => AdvanceShape(x, release); AdvanceExclusive(x, release);
  }

  // ---------------------------------------------------------------- fairness

  /** Whether the operation returns p: nn_lb_send and nn_fq_recv use the pipe that nn_priolist_getpipe
      finds before they advance. */
  predicate Returns<T(==)>(x: Prio<T>, op: Op<T>, p: T) {
    op.Advance? && 1 <= x.current <= |x.slots|
    && !x.slots[x.current - 1].Empty() && x.slots[x.current - 1].after[0] == p
  }

  function Position<T(==)>(q: seq<T>, p: T): (n: nat)
    requires p in q
    ensures n < |q| && q[n] == p
  {
    if q[0] == p then 0 else 1 + Position(q[1..], p)
  }

  /** How many pipes of its slot are to be returned before p. */
  function Turns<T(==)>(x: Prio<T>, p: T, priority: int): nat
    requires |x.slots| == SLOTS && 1 <= priority <= SLOTS && p in x.slots[priority - 1].Ring()
  {
    Position(x.slots[priority - 1].Ring(), p)
  }

  /** The operation advances in the slot of this priority. */
  predicate AdvancesAt<T>(x: Prio<T>, op: Op<T>, priority: int) { op.Advance? && x.current == priority }

  /** The operation adds a pipe that is to be returned before p: an activated pipe goes to the end of the
      list, so that is so when p precedes the current pipe of the list. */
  predicate AddsAhead<T(==)>(x: Prio<T>, op: Op<T>, p: T, priority: int)
    requires |x.slots| == SLOTS && 1 <= priority <= SLOTS
  {
    op.Activate? && op.priority == priority && p in x.slots[priority - 1].before
  }

  /** The operation takes a pipe away that was to be returned before p. */
  predicate RemovesAhead<T(==)>(x: Prio<T>, op: Op<T>, p: T, priority: int)
    requires |x.slots| == SLOTS && 1 <= priority <= SLOTS
  {
    op.Remove? && op.priority == priority &&
    var r := x.slots[priority - 1].Ring();
    p in r && op.pipe in r && Position(r, op.pipe) < Position(r, p)
  }

  function One(b: bool): nat { if b then 1 else 0 }

  lemma {:induction false} PositionAppend<T>(q: seq<T>, r: seq<T>, p: T)
    requires p in q + r
    ensures Position(q + r, p) == if p in q then Position(q, p) else |q| + Position(r, p)
  {
    if q == [] {
      assert q + r == r;
    } else {
      assert (q + r)[1..] == q[1..] + r;
      if q[0] != p {
        assert p in (q + r)[1..] by {
          if p in q { assert p in q[1..]; }
        }
        PositionAppend(q[1..], r, p);
        assert p in q <==> p in q[1..];
      }
    }
  }

  lemma {:induction false} PositionErase<T>(q: seq<T>, p: T, other: T)
    requires p in q && other != p
    ensures p in Erase(q, other)
    ensures Position(Erase(q, other), p) + One(other in q && Position(q, other) < Position(q, p)) == Position(q, p)
  {
    if q[0] != other && q[0] != p {
      PositionErase(q[1..], p, other);
    }
  }

  lemma AddTurn<T>(s: Slot<T>, p: T, other: T)
    requires SlotOk(s) && p in s.Ring() && other !in s.Pipes()
    ensures p in SlotAdd(s, other).Ring()
    ensures Position(SlotAdd(s, other).Ring(), p) == Position(s.Ring(), p) + One(p in s.before)
  {
    PositionAppend(s.after, s.before, p);
    assert SlotAdd(s, other).Ring() == s.after + ([other] + s.before);
    assert p in [other] + s.before || p in s.after;
    PositionAppend(s.after, [other] + s.before, p);
    if p in s.before {
      OneSide(s, p);
      PositionAppend([other], s.before, p);
    }
  }

  lemma AdvanceTurn<T>(s: Slot<T>, p: T, release: bool)
    requires SlotOk(s) && !s.Empty() && p in s.Ring() && s.after[0] != p
    ensures p in SlotAdvance(s, release).Ring()
    ensures Position(SlotAdvance(s, release).Ring(), p) == Position(s.Ring(), p) - 1
  {
    var r := s.Ring();
    AdvanceRing(s, release);
    assert p in r[1..];
    PositionAppend(r[1..], if release then [] else [r[0]], p);
  }

  /** What an operation does to the slot of a priority. */
  function SlotAfter<T(==)>(x: Prio<T>, op: Op<T>, priority: int): Slot<T>
    requires Inv(x) && Fits(x, op) && 1 <= priority <= SLOTS
  {
    var s := x.slots[priority - 1];
    match op
    case Activate(p, i) => if i == priority then SlotAdd(s, p) else s
    case Remove(p, i) => if i == priority then SlotRemove(s, p) else s
    case Advance(release) => if x.current == priority then SlotAdvance(s, release) else s
  }

  lemma ApplySlot<T>(x: Prio<T>, op: Op<T>, priority: int)
    requires Inv(x) && Fits(x, op) && 1 <= priority <= SLOTS
    ensures Apply(x, op).slots[priority - 1] == SlotAfter(x, op, priority)
  {
  }

  lemma RemoveTurn<T>(s: Slot<T>, p: T, other: T)
    requires SlotOk(s) && p in s.Ring() && other != p
    ensures p in SlotRemove(s, other).Ring()
    ensures Position(SlotRemove(s, other).Ring(), p)
              + One(other in s.Ring() && Position(s.Ring(), other) < Position(s.Ring(), p))
            == Position(s.Ring(), p)
  {
    RemoveIs(s, other);
    PositionErase(s.Ring(), p, other);
  }

  lemma SlotTurn<T>(x: Prio<T>, op: Op<T>, p: T, priority: int)
    requires Inv(x) && Fits(x, op) && 1 <= priority <= SLOTS && p in x.slots[priority - 1].Ring()
    requires !Returns(x, op, p) && op != Remove(p, priority)
    ensures p in SlotAfter(x, op, priority).Ring()
    ensures Position(SlotAfter(x, op, priority).Ring(), p) + One(AdvancesAt(x, op, priority))
              + One(RemovesAhead(x, op, p, priority))
            == Turns(x, p, priority) + One(AddsAhead(x, op, p, priority))
  {
    var s := x.slots[priority - 1];
    match op
    case Activate(other, i) => if i == priority { AddTurn(s, p, other); }
    case Remove(other, i) => if i == priority { RemoveTurn(s, p, other); }
    case Advance(release) => if x.current == priority { AdvanceTurn(s, p, release); }
  }

  /** One operation: unless it returns or removes p, p stays in its slot. It comes one turn closer exactly
      when its slot is advanced or a pipe ahead of it is removed, and falls back by one exactly when a pipe
      is added ahead of it. */
  lemma TurnsStep<T>(x: Prio<T>, op: Op<T>, p: T, priority: int)
    requires Inv(x) && Fits(x, op) && 1 <= priority <= SLOTS && p in x.slots[priority - 1].Ring()
    requires !Returns(x, op, p) && op != Remove(p, priority)
    ensures Inv(Apply(x, op)) && p in Apply(x, op).slots[priority - 1].Ring()
    ensures Turns(Apply(x, op), p, priority) + One(AdvancesAt(x, op, priority)) + One(RemovesAhead(x, op, p, priority))
            == Turns(x, p, priority) + One(AddsAhead(x, op, p, priority))
  {
    ApplyKeeps(x, op);
    ApplySlot(x, op, priority);
    SlotTurn(x, op, p, priority);
  }

  /** A run of operations, with all states on the way. */
  ghost predicate Run<T>(xs: seq<Prio<T>>, ops: seq<Op<T>>) {
    && |xs| == |ops| + 1 && Inv(xs[0])
    && forall i :: 0 <= i < |ops| ==> Fits(xs[i], ops[i]) && (Inv(xs[i]) ==> xs[i + 1] == Apply(xs[i], ops[i]))
  }

  lemma {:induction false} RunInv<T>(xs: seq<Prio<T>>, ops: seq<Op<T>>, n: nat)
    requires Run(xs, ops) && n <= |ops|
    ensures Inv(xs[n])
  {
    if n > 0 {
      RunInv(xs, ops, n - 1);
      ApplyKeeps(xs[n - 1], ops[n - 1]);
    }
  }

  /** How often, in the first n operations, the slot of a priority is advanced, a pipe ahead of p is
      removed, and a pipe is added ahead of p. */
  function Advances<T>(xs: seq<Prio<T>>, ops: seq<Op<T>>, priority: int, n: nat): nat
    requires |xs| > |ops| >= n
  {
    if n == 0 then 0 else Advances(xs, ops, priority, n - 1) + One(AdvancesAt(xs[n - 1], ops[n - 1], priority))
  }

  ghost function Removals<T>(xs: seq<Prio<T>>, ops: seq<Op<T>>, p: T, priority: int, n: nat): nat
    requires Run(xs, ops) && n <= |ops| && 1 <= priority <= SLOTS
  {
    if n == 0 then 0
    else Removals(xs, ops, p, priority, n - 1) + One(RemovesAhead(xs[n - 1], ops[n - 1], p, priority))
  }

  ghost function Adds<T>(xs: seq<Prio<T>>, ops: seq<Op<T>>, p: T, priority: int, n: nat): nat
    requires Run(xs, ops) && n <= |ops| && 1 <= priority <= SLOTS
  {
    if n == 0 then 0
    else Adds(xs, ops, p, priority, n - 1) + One(AddsAhead(xs[n - 1], ops[n - 1], p, priority))
  }

  ghost predicate Untouched<T>(xs: seq<Prio<T>>, ops: seq<Op<T>>, p: T, priority: int, n: nat)
    requires Run(xs, ops) && n <= |ops|
  {
    forall i :: 0 <= i < n ==> !Returns(xs[i], ops[i], p) && ops[i] != Remove(p, priority)
  }

  /** The account of a waiting pipe: as long as p is neither returned nor removed, the turns it still waits
      are those it had to wait at first, less the advances of its slot and the removals ahead of it, plus
      the pipes added ahead of it. */
  lemma {:induction false} Waits<T>(xs: seq<Prio<T>>, ops: seq<Op<T>>, p: T, priority: int, n: nat)
    requires Run(xs, ops) && 1 <= priority <= SLOTS && p in xs[0].slots[priority - 1].Ring() && n <= |ops|
    requires Untouched(xs, ops, p, priority, n)
    ensures Inv(xs[n]) && p in xs[n].slots[priority - 1].Ring()
    ensures Turns(xs[n], p, priority) + Advances(xs, ops, priority, n) + Removals(xs, ops, p, priority, n)
            == Turns(xs[0], p, priority) + Adds(xs, ops, p, priority, n)
  {
    RunInv(xs, ops, n);
    if n > 0 {
      Waits(xs, ops, p, priority, n - 1);
      TurnsStep(xs[n - 1], ops[n - 1], p, priority);
    }
  }

  /** The slot of p has been advanced more often than there were pipes to be returned before p. */
  ghost predicate Due<T>(xs: seq<Prio<T>>, ops: seq<Op<T>>, p: T, priority: int, n: nat)
    requires Run(xs, ops) && 1 <= priority <= SLOTS && p in xs[0].slots[priority - 1].Ring() && n <= |ops|
  {
    Advances(xs, ops, priority, n) + Removals(xs, ops, p, priority, n)
      > Turns(xs[0], p, priority) + Adds(xs, ops, p, priority, n)
  }

  ghost predicate ReturnedWithin<T>(xs: seq<Prio<T>>, ops: seq<Op<T>>, p: T, n: nat)
    requires Run(xs, ops) && n <= |ops|
  {
    exists i :: 0 <= i < n && Returns(xs[i], ops[i], p)
  }

  /** A pipe is returned from the slot it is in. */
  lemma ReturnsHead<T>(x: Prio<T>, op: Op<T>, p: T, priority: int)
    requires Inv(x) && Fits(x, op) && 1 <= priority <= SLOTS && p in x.slots[priority - 1].Ring()
    requires Returns(x, op, p)
    ensures AdvancesAt(x, op, priority) && Turns(x, p, priority) == 0
  {
    assert p in x.slots[x.current - 1].Ring();
  }

  /** Fairness, exactly: a pipe that is not removed is returned within n operations if and only if at some
      point of them the advances of its slot exceed its turns at first, less the removals ahead of it, plus
      the pipes added ahead of it. */
  lemma {:induction false} ReturnedExactly<T>(xs: seq<Prio<T>>, ops: seq<Op<T>>, p: T, priority: int, n: nat)
    requires Run(xs, ops) && 1 <= priority <= SLOTS && p in xs[0].slots[priority - 1].Ring() && n <= |ops|
    requires forall i :: 0 <= i < n ==> ops[i] != Remove(p, priority)
    ensures ReturnedWithin(xs, ops, p, n) <==> exists m :: 0 <= m <= n && Due(xs, ops, p, priority, m)
  {
    if n > 0 {
      ReturnedExactly(xs, ops, p, priority, n - 1);
      if !ReturnedWithin(xs, ops, p, n - 1) {
        ReturnedNow(xs, ops, p, priority, n - 1);
      }
    }
  }

  /** As long as p has not been returned, it is by the next operation exactly when that makes it due. */
  lemma ReturnedNow<T>(xs: seq<Prio<T>>, ops: seq<Op<T>>, p: T, priority: int, n: nat)
    requires Run(xs, ops) && 1 <= priority <= SLOTS && p in xs[0].slots[priority - 1].Ring() && n < |ops|
    requires Untouched(xs, ops, p, priority, n) && ops[n] != Remove(p, priority)
    ensures Returns(xs[n], ops[n], p) <==> Due(xs, ops, p, priority, n + 1)
  {
    Waits(xs, ops, p, priority, n);
    if Returns(xs[n], ops[n], p) {
      ReturnsHead(xs[n], ops[n], p, priority);
    } else {
      TurnsStep(xs[n], ops[n], p, priority);
    }
  }

  /** Without activations the current slot stays current while it holds p, so every advance is one of
      its own. */
  lemma {:induction false} StaysCurrent<T>(xs: seq<Prio<T>>, ops: seq<Op<T>>, p: T, n: nat)
    requires Run(xs, ops) && xs[0].current != -1 && p in xs[0].slots[xs[0].current - 1].Ring() && n <= |ops|
    requires Untouched(xs, ops, p, xs[0].current, n) && forall i :: 0 <= i < n ==> !ops[i].Activate?
    ensures xs[n].current == xs[0].current
  {
    if n > 0 {
      StaysCurrent(xs, ops, p, n - 1);
      Waits(xs, ops, p, xs[0].current, n - 1);
      StepCurrent(xs[n - 1], ops[n - 1], p);
    }
  }

  lemma StepCurrent<T>(x: Prio<T>, op: Op<T>, p: T)
    requires Inv(x) && Fits(x, op) && x.current != -1 && p in x.slots[x.current - 1].Ring() && !op.Activate?
    requires !Returns(x, op, p) && op != Remove(p, x.current)
    ensures Apply(x, op).current == x.current
  {
    TurnsStep(x, op, p, x.current);
    LowerStayEmpty(x, op, x.current);
  }

  lemma LowerStayEmpty<T>(x: Prio<T>, op: Op<T>, priority: int)
    requires Inv(x) && Fits(x, op) && x.current == priority != -1 && !op.Activate?
    requires !Apply(x, op).slots[x.current - 1].Empty()
    ensures Apply(x, op).current == priority
  {
    ApplyKeeps(x, op);
  }

  function Count<T>(ops: seq<Op<T>>, n: nat): nat
    requires n <= |ops|
  {
    if n == 0 then 0 else Count(ops, n - 1) + if ops[n - 1].Advance? then 1 else 0
  }

  /** Fairness: when the current slot holds k pipes and none is activated, each of them is returned
      within k advances, unless it is removed; whatever else is removed or released. */
  lemma Fair<T>(xs: seq<Prio<T>>, ops: seq<Op<T>>, p: T)
    requires Run(xs, ops) && xs[0].current != -1 && p in xs[0].slots[xs[0].current - 1].Ring()
    requires forall i :: 0 <= i < |ops| ==> !ops[i].Activate?
    requires Count(ops, |ops|) >= |xs[0].slots[xs[0].current - 1].Pipes()|
    ensures exists i :: 0 <= i < |ops| && (Returns(xs[i], ops[i], p) || ops[i] == Remove(p, xs[0].current))
  {
    var c := xs[0].current;
    if Untouched(xs, ops, p, c, |ops|) {
      Waits(xs, ops, p, c, |ops|);
      AllOwn(xs, ops, p, |ops|);
      NoAdds(xs, ops, p, c, |ops|);
      assert false;
    }
  }

  lemma {:induction false} NoAdds<T>(xs: seq<Prio<T>>, ops: seq<Op<T>>, p: T, priority: int, n: nat)
    requires Run(xs, ops) && 1 <= priority <= SLOTS && n <= |ops| && forall i :: 0 <= i < n ==> !ops[i].Activate?
    ensures Adds(xs, ops, p, priority, n) == 0
  {
    if n > 0 { NoAdds(xs, ops, p, priority, n - 1); }
  }

  lemma {:induction false} AllOwn<T>(xs: seq<Prio<T>>, ops: seq<Op<T>>, p: T, n: nat)
    requires Run(xs, ops) && xs[0].current != -1 && p in xs[0].slots[xs[0].current - 1].Ring() && n <= |ops|
    requires Untouched(xs, ops, p, xs[0].current, n) && forall i :: 0 <= i < n ==> !ops[i].Activate?
    ensures Advances(xs, ops, xs[0].current, n) == Count(ops, n)
  {
    if n > 0 {
      AllOwn(xs, ops, p, n - 1);
      StaysCurrent(xs, ops, p, n - 1);
    }
  }

  lemma RunSnoc<T>(xs: seq<Prio<T>>, ops: seq<Op<T>>, op: Op<T>)
    requires Run(xs, ops) && Inv(xs[|ops|]) && Fits(xs[|ops|], op)
    ensures Run(xs + [Apply(xs[|ops|], op)], ops + [op])
  {
  }

  /** One more operation at the end of a run that leaves p alone. */
  lemma Snoc<T>(xs: seq<Prio<T>>, ops: seq<Op<T>>, op: Op<T>, p: T, priority: int)
    returns (xs': seq<Prio<T>>, ops': seq<Op<T>>)
    requires Run(xs, ops) && Untouched(xs, ops, p, priority, |ops|) && Inv(xs[|ops|]) && Fits(xs[|ops|], op)
    requires !Returns(xs[|ops|], op, p) && op != Remove(p, priority)
    ensures Run(xs', ops') && Untouched(xs', ops', p, priority, |ops'|) && |ops'| == |ops| + 1
    ensures xs'[0] == xs[0] && xs'[|ops'|] == Apply(xs[|ops|], op) && Inv(xs'[|ops'|])
    ensures Count(ops', |ops'|) == Count(ops, |ops|) + if op.Advance? then 1 else 0
  {
    ApplyKeeps(xs[|ops|], op);
    RunSnoc(xs, ops, op);
    xs', ops' := xs + [Apply(xs[|ops|], op)], ops + [op];
    CountPrefix(ops, op, |ops|);
  }

  lemma {:induction false} CountPrefix<T>(ops: seq<Op<T>>, op: Op<T>, n: nat)
    requires n <= |ops|
    ensures Count(ops + [op], n) == Count(ops, n)
  {
    if n > 0 { CountPrefix(ops, op, n - 1); }
  }

  /** One slot in use, with the current pipe at the front of `after`. */
  function Only(before: seq<nat>, after: seq<nat>): Prio<nat> {
    Prio([Slot(before, after)] + seq(SLOTS - 1, _ => Slot([], [])), 1)
  }

  lemma OnlyApply(before: seq<nat>, after: seq<nat>, p: nat)
    requires after != []
    ensures |after| > 1 ==> Apply(Only(before, after), Advance(true)) == Only(before, after[1..])
    ensures p !in before + after ==> Fits(Only(before, after), Activate(p, 1))
    ensures p !in before + after ==> Apply(Only(before, after), Activate(p, 1)) == Only(before, after + [p])
  {
    if |after| > 1 {
      var x := Apply(Only(before, after), Advance(true));
      assert x.slots == Only(before, after[1..]).slots;
    }
    if p !in before + after {
      var x := Apply(Only(before, after), Activate(p, 1));
      assert x.slots == Only(before, after + [p]).slots;
    }
  }

  /** A run of `count` advances from Only([0], [1, 2]) to Only([0], after) that leaves pipe 0 alone. */
  ghost predicate Waiting(xs: seq<Prio<nat>>, ops: seq<Op<nat>>, count: nat, after: seq<nat>) {
    && Run(xs, ops) && xs[0] == Only([0], [1, 2]) && xs[|ops|] == Only([0], after)
    && Untouched(xs, ops, 0, 1, |ops|) && Count(ops, |ops|) == count
  }

  lemma Released(xs: seq<Prio<nat>>, ops: seq<Op<nat>>, count: nat, after: seq<nat>)
    returns (xs': seq<Prio<nat>>, ops': seq<Op<nat>>)
    requires Waiting(xs, ops, count, after) && |after| > 1 && after[0] != 0
    ensures Waiting(xs', ops', count + 1, after[1..])
  {
    RunInv(xs, ops, |ops|);
    OnlyApply([0], after, 0);
    xs', ops' := Snoc(xs, ops, Advance(true), 0, 1);
  }

  lemma Activated(xs: seq<Prio<nat>>, ops: seq<Op<nat>>, count: nat, after: seq<nat>, p: nat)
    returns (xs': seq<Prio<nat>>, ops': seq<Op<nat>>)
    requires Waiting(xs, ops, count, after) && after != [] && p !in [0] + after
    ensures Waiting(xs', ops', count, after + [p])
  {
    RunInv(xs, ops, |ops|);
    OnlyApply([0], after, p);
    xs', ops' := Snoc(xs, ops, Activate(p, 1), 0, 1);
  }

  /** Activations are not harmless: two pipes that are released by every message and become active again
      at once, as pipes of a fair queue with one message at a time do, keep a third one of the same
      priority waiting through any number of advances. */
  lemma {:induction false} Starves(n: nat) returns (xs: seq<Prio<nat>>, ops: seq<Op<nat>>)
    ensures Waiting(xs, ops, 2 * n, [1, 2])
  {
    if n == 0 {
      xs, ops := [Only([0], [1, 2])], [];
      OnlyInv();
    } else {
      xs, ops := Starves(n - 1);
      xs, ops := Turn(xs, ops, 2 * n - 2, 1, 2);
      xs, ops := Turn(xs, ops, 2 * n - 1, 2, 1);
    }
  }

  /** The current pipe is returned, released, and becomes active again. */
  lemma Turn(xs: seq<Prio<nat>>, ops: seq<Op<nat>>, count: nat, q: nat, r: nat)
    returns (xs': seq<Prio<nat>>, ops': seq<Op<nat>>)
    requires Waiting(xs, ops, count, [q, r]) && q != 0 && r != 0 && q != r
    ensures Waiting(xs', ops', count + 1, [r, q])
  {
    assert [q, r][1..] == [r] && [r] + [q] == [r, q];
    xs', ops' := Released(xs, ops, count, [q, r]);
    xs', ops' := Activated(xs', ops', count + 1, [r], q);
  }

  lemma OnlyExclusive()
    ensures Exclusive(Only([0], [1, 2]).slots)
  {
    var x := Only([0], [1, 2]);
    assert forall i :: 0 < i < SLOTS ==> x.slots[i].Ring() == [];
  }

  lemma OnlyInv()
    ensures Inv(Only([0], [1, 2]))
  {
    assert [1, 2] + [0] == [1, 2, 0];
    assert Shape(Only([0], [1, 2]));
    OnlyExclusive();
  }
}
