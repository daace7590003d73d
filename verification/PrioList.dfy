/** struct nn_priolist, in place, and the load balancer and fair queue on top of it. */
module PrioList {
  import opened PrioModel
  import opened Seqs

  /** struct nn_priolist_data. */
  class Data {
    const pipe: nat
    const priority: int

    /** nn_priolist_add. */
    constructor (pipe: nat, priority: int)
      requires 1 <= priority <= SLOTS
      ensures this.pipe == pipe && this.priority == priority
    {
      this.pipe, this.priority := pipe, priority;
    }
  }

  /** nn_list_next and nn_list_begin: what the list of a slot has behind an item, and first. */
  function Following(q: seq<Data>, d: Data): Data? {
    if |q| < 2 then null else if q[0] == d then q[1] else Following(q[1..], d)
  }

  function First(q: seq<Data>): Data? {
    if q == [] then null else q[0]
  }

  /** The fields of a slot stand for the value: the list, and the current pointer. */
  ghost predicate Shows(q: seq<Data>, c: Data?, s: Slot<Data>) {
    q == s.Pipes() && c == if s.Empty() then null else s.after[0]
  }

  lemma {:induction false} FollowingCurrent(before: seq<Data>, after: seq<Data>)
    requires after != [] && after[0] !in before
    ensures Following(before + after, after[0]) == if |after| > 1 then after[1] else null
  {
    if before == [] {
      assert before + after == after;
    } else {
      assert (before + after)[1..] == before[1..] + after;
      FollowingCurrent(before[1..], after);
    }
  }

  lemma CurrentOnce(s: Slot<Data>)
    requires SlotOk(s) && !s.Empty()
    ensures s.after[0] !in s.before && s.after[0] !in s.after[1..]
  {
    var c := s.after[0];
    assert c in s.Ring();
    assert multiset(s.Ring()) == multiset{c} + multiset(s.after[1..]) + multiset(s.before) by {
      assert s.Ring() == [c] + s.after[1..] + s.before;
    }
    assert multiset(s.after[1..])[c] == 0 && multiset(s.before)[c] == 0;
  }

  /** Lines 81-87 and 158-164: taking the current pipe off and going on to the next one, or going on
      only, wrapping over. */
  lemma CurrentGone(s: Slot<Data>)
    requires SlotOk(s) && !s.Empty()
    ensures var q, c := s.Pipes(), s.after[0];
            var rest := Erase(q, c);
            var n := Following(q, c);
            Shows(rest, if n == null then First(rest) else n, Wrap(s.before, s.after[1..]))
  {
    CurrentOnce(s);
    FollowingCurrent(s.before, s.after);
    EraseAppend(s.before, s.after, s.after[0]);
  }

  lemma CurrentSkipped(s: Slot<Data>)
    requires SlotOk(s) && !s.Empty()
    ensures var q := s.Pipes();
            var n := Following(q, s.after[0]);
            Shows(q, if n == null then First(q) else n, SlotAdvance(s, false))
  {
    CurrentOnce(s);
    FollowingCurrent(s.before, s.after);
    assert s.before + [s.after[0]] + s.after[1..] == s.Pipes();
  }

  lemma OtherGone(s: Slot<Data>, d: Data)
    requires SlotOk(s) && !s.Empty() && d != s.after[0]
    ensures Shows(Erase(s.Pipes(), d), s.after[0], SlotRemove(s, d))
  {
    EraseAppend(s.before, s.after, d);
    if d !in s.before && d !in s.after[1..] { EraseAbsent(s.after[1..], d); }
  }

  lemma NotThere(s: Slot<Data>, d: Data)
    requires d !in s.Pipes()
    ensures SlotRemove(s, d) == s
  {
    if !s.Empty() {
      assert d != s.after[0] && d !in s.before && d !in s.after[1..];
      EraseAbsent(s.after[1..], d);
      assert [s.after[0]] + s.after[1..] == s.after;
    }
  }

  class PrioList {
    const pipes: array<seq<Data>>    // slots[].pipes
    const at: array<Data?>           // slots[].current
    var current: int
    ghost var value: Prio<Data>

    ghost predicate Slots()
      reads this, pipes, at
    {
      && pipes.Length == SLOTS == at.Length == |value.slots|
      && forall i :: 0 <= i < SLOTS ==> Shows(pipes[i], at[i], value.slots[i])
    }

    ghost predicate Valid()
      reads this, pipes, at
    {
      Slots() && Inv(value) && current == value.current
    }

    /** nn_priolist_init. */
    constructor ()
      ensures Valid() && value == Start() && fresh(pipes) && fresh(at)
    {
      pipes := new seq<Data>[SLOTS](_ => []);
      at := new Data?[SLOTS](_ => null);
      current := -1;
      value := Start();
      new;
      StartInv<Data>();
    }

    /** nn_priolist_is_active. */
    method IsActive() returns (r: bool)
      requires Valid()
      ensures r <==> exists i :: 0 <= i < SLOTS && !value.slots[i].Empty()
    {
      r := current != -1;
    }

    /** nn_priolist_getpipe. */
    method GetPipe() returns (r: Data?)
      requires Valid()
      ensures r == null <==> value.current == -1
      ensures r != null ==> r == value.slots[value.current - 1].after[0]
    {
      if current == -1 {
        return null;
      }
      r := at[current - 1];
    }

    /** nn_priolist_activate. */
    method Activate(data: Data)
      requires Valid() && Fits(value, Op.Activate(data, data.priority))
      modifies this, pipes, at
      ensures Valid() && value == Apply(old(value), Op.Activate(data, data.priority))
    {
      ApplyKeeps(value, Op.Activate(data, data.priority));
      var i := data.priority - 1;
      value := Apply(value, Op.Activate(data, data.priority));
      if pipes[i] != [] {
        pipes[i] := pipes[i] + [data];
        return;
      }
      pipes[i] := pipes[i] + [data];
      at[i] := data;
      Prefer(data.priority);
    }

    /** Lines 120-134: a slot that was empty has got a pipe. */
    method Prefer(priority: int)
      modifies `current
      ensures current == if old(current) == -1 || old(current) > priority then priority else old(current)
    {
      if current == -1 {
        current := priority;
        return;
      }
      if current > priority {
        current := priority;
      }
    }

    /** Lines 81-87 and 157-164: the current pipe of a slot is left, and taken off if it is removed or
        released. */
    method LeaveCurrent(i: nat, release: bool)
      requires pipes.Length == SLOTS == at.Length == |value.slots| && i < SLOTS && !value.slots[i].Empty()
      requires SlotOk(value.slots[i]) && Shows(pipes[i], at[i], value.slots[i])
      modifies pipes, at
      ensures Shows(pipes[i], at[i], SlotAdvance(value.slots[i], release))
      ensures forall j :: 0 <= j < SLOTS && j != i ==> pipes[j] == old(pipes[j]) && at[j] == old(at[j])
    {
      var data: Data := at[i];
      var it := Following(pipes[i], data);
      if release {
        CurrentGone(value.slots[i]);
        pipes[i] := Erase(pipes[i], data);
      } else {
        CurrentSkipped(value.slots[i]);
      }
      if it == null {
        it := First(pipes[i]);
      }
      at[i] := it;
    }

    /** nn_priolist_rm.  A pipe is in the list or not active. */
    method Rm(data: Data)
      requires Valid() && Fits(value, Remove(data, data.priority))
      modifies this, pipes, at
      ensures Valid() && value == Apply(old(value), Remove(data, data.priority))
    {
      ApplyKeeps(value, Remove(data, data.priority));
      var i := data.priority - 1;
      if data !in pipes[i] {
        NotThere(value.slots[i], data);
        value := Apply(value, Remove(data, data.priority));
        return;
      }
      if at[i] != data {
        RmOther(data);
        return;
      }
      LeaveCurrent(i, true);
      value := Apply(value, Remove(data, data.priority));
      if current != data.priority {
        return;
      }
      SeekDown();
    }

    /** Lines 71-78: the pipe is not the current one. */
    method RmOther(data: Data)
      requires Valid() && Fits(value, Remove(data, data.priority))
      requires data in pipes[data.priority - 1] && at[data.priority - 1] != data
      modifies this, pipes
      ensures Valid() && value == Apply(old(value), Remove(data, data.priority))
    {
      ApplyKeeps(value, Remove(data, data.priority));
      var i := data.priority - 1;
      OtherGone(value.slots[i], data);
      value := Apply(value, Remove(data, data.priority));
      pipes[i] := Erase(pipes[i], data);
    }

    /** Lines 93-101 and 166-175. */
    method SeekDown()
      requires Slots() && Inv(value) && 1 <= current <= SLOTS && value.current == Seek(value.slots, current)
      modifies `current
      ensures Slots() && current == value.current
    {
      while pipes[current - 1] == []
        invariant 1 <= current <= SLOTS && value.current == Seek(value.slots, current)
        decreases SLOTS - current
      {
        current := current + 1;
        if current > SLOTS {
          current := -1;
          return;
        }
      }
    }

    /** nn_priolist_advance. */
    method Advance(release: bool)
      requires Valid() && Fits(value, Op.Advance(release))
      modifies this, pipes, at
      ensures Valid() && value == Apply(old(value), Op.Advance(release))
    {
      assert current > 0;
      ApplyKeeps(value, Op.Advance(release));
      LeaveCurrent(current - 1, release);
      value := Apply(value, Op.Advance(release));
      SeekDown();
    }

    /** nn_fq_recv and nn_lb_send: the pipe that is used, null for -EAGAIN.  `release` says whether the
        pipe itself answers with NN_PIPE_RELEASE. */
    method Use(release: bool) returns (r: Data?)
      requires Valid()
      modifies this, pipes, at
      ensures Valid() && (r == null <==> old(value).current == -1)
      ensures r == null ==> value == old(value)
      ensures r != null ==>
                Returns(old(value), Op.Advance(release), r) && value == Apply(old(value), Op.Advance(release))
    {
      r := GetPipe();
      if r == null {
        return;
      }
      Advance(release);
    }
  }
}
