/** struct nn_sock and struct nn_ep, in place: every method does what the step of the same name in
    SockModel.dfy says. */
module Sock {
  import opened Seqs
  import M = SockModel

  datatype EpState = Idle | Active | Stopping

  /** struct nn_ep; an endpoint is started as soon as it exists. */
  class Ep {
    const eid: nat
    var state: EpState

    constructor (eid: nat)
      ensures this.eid == eid && state == Active
    {
      this.eid, state := eid, Active;
    }
  }

  function Eids(eps: seq<Ep>): (r: seq<nat>)
    ensures |r| == |eps|
  {
    seq(|eps|, i requires 0 <= i < |eps| => eps[i].eid)
  }

  lemma EidsAppend(a: seq<Ep>, b: seq<Ep>)
    ensures Eids(a + b) == Eids(a) + Eids(b)
  {
  }

  lemma {:induction false} EidsErase(eps: seq<Ep>, ep: Ep)
    requires ep in eps && multiset(Eids(eps))[ep.eid] == 1
    ensures Eids(Erase(eps, ep)) == Erase(Eids(eps), ep.eid)
  {
    var ids := Eids(eps);
    assert ids[1..] == Eids(eps[1..]) && ids == [ids[0]] + ids[1..];
    if eps[0] != ep {
      var i :| 0 <= i < |eps| && eps[i] == ep;
      assert ids[1..][i - 1] == ep.eid;
      assert ep.eid in multiset(ids[1..]);
      EidsErase(eps[1..], ep);
      EidsAppend([eps[0]], Erase(eps[1..], ep));
    }
  }

  lemma {:induction false} InEids(eps: seq<Ep>, ep: Ep)
    requires ep in eps
    ensures ep.eid in Eids(eps)
  {
    var i :| 0 <= i < |eps| && eps[i] == ep;
    assert Eids(eps)[i] == ep.eid;
  }

  lemma Erased(eps: seq<Ep>, ep: Ep)
    requires ep in eps && multiset(Eids(eps))[ep.eid] == 1
    ensures Eids(Erase(eps, ep)) == Erase(Eids(eps), ep.eid) && ep !in Erase(eps, ep)
    ensures forall x :: x in Erase(eps, ep) ==> x in eps
  {
    EidsErase(eps, ep);
    EraseSpec(Eids(eps), ep.eid);
    EraseSpec(eps, ep);
    var rest := Erase(eps, ep);
    assert multiset(Eids(rest))[ep.eid] == 0;
    if ep in rest { InEids(rest, ep); }
    forall x | x in rest ensures x in eps { assert x in multiset(rest); }
  }

  predicate Distinct(eps: seq<Ep>) {
    forall i, j :: 0 <= i < j < |eps| ==> eps[i] != eps[j]
  }

  lemma Twice(q: seq<nat>, i: nat, j: nat)
    requires i < j < |q| && q[i] == q[j]
    ensures multiset(q)[q[i]] >= 2
  {
    assert q == q[..j] + q[j..];
    assert q[..j][i] == q[i] && q[j..][0] == q[i];
    assert q[i] in multiset(q[..j]) && q[i] in multiset(q[j..]);
  }

  lemma ObjectsOnce(x: M.Sock, eps: seq<Ep>, sdeps: seq<Ep>)
    requires M.Conserved(x) && x.eps == Eids(eps) && x.sdeps == Eids(sdeps)
    ensures Distinct(eps) && forall ep :: ep in eps ==> ep !in sdeps
  {
    forall ep | ep in eps ensures ep !in sdeps {
      InEids(eps, ep);
      M.Once(x, ep.eid);
      if ep in sdeps { InEids(sdeps, ep); }
    }
    forall i, j | 0 <= i < j < |eps| ensures eps[i] != eps[j] {
      M.Once(x, x.eps[i]);
      if eps[i] == eps[j] { Twice(x.eps, i, j); }
    }
  }

  class Sock {
    var state: M.State
    const stops: bool
    var stopAsked: bool
    var eps: seq<Ep>
    var sdeps: seq<Ep>
    var eid: nat
    var holds: int
    var termsem: nat
    var relesem: nat
    ghost var ended: seq<nat>
    ghost var users: nat
    ghost var closers: nat

    ghost function Value(): M.Sock
      reads this
    {
      M.Sock(state, stops, stopAsked, Eids(eps), Eids(sdeps), eid, holds, termsem, relesem, ended, users, closers)
    }

    ghost function Owned(): set<Ep>
      reads this
    {
      (set ep | ep in eps) + (set ep | ep in sdeps)
    }

    /** Endpoints in use run, those in sdeps have been asked to stop. */
    ghost predicate Eps()
      reads this, Owned()
    {
      && (forall ep :: ep in eps ==> ep.state == Active)
      && (forall ep :: ep in sdeps ==> ep.state == Stopping)
    }

    /** nn_sock_init. */
    constructor (stops: bool)
      ensures Eps() && Value() == M.Fresh(stops) && eps == [] && sdeps == []
    {
      state, this.stops, stopAsked, eps, sdeps, eid := M.Active, stops, false, [], [], 1;
      holds, termsem, relesem, ended, users, closers := 1, 0, 0, [], 0, 0;
    }

    /** nn_sock_hold; false stands for -EBADF. */
    method Hold() returns (ok: bool)
      modifies `holds, `users
      ensures M.Apply(old(Value()), M.Hold) == if ok then M.Ok(Value()) else M.Refused
      ensures !ok ==> Value() == old(Value())
    {
      if state != M.Active {
        return false;
      }
      holds := holds + 1;
      users := users + 1;
      return true;
    }

    /** nn_sock_rele. */
    method DropHold()
      modifies `holds, `relesem
      ensures Value() == M.Drop(old(Value()))
    {
      holds := holds - 1;
      if holds == 0 {
        relesem := relesem + 1;
      }
    }

    /** nn_global_rele_socket by a user. */
    method Rele()
      requires M.Enabled(Value(), M.Rele)
      modifies `holds, `relesem, `users
      ensures M.Ok(Value()) == M.Apply(old(Value()), M.Rele)
    {
      DropHold();
      users := users - 1;
    }

    /** nn_sock_add_ep, the transport having agreed. */
    method AddEp() returns (r: nat)
      requires Eps()
      modifies `eps, `eid
      ensures Eps() && r == old(eid) && M.Ok(Value()) == M.Apply(old(Value()), M.AddEp)
      ensures fresh(Owned() - old(Owned()))
    {
      var ep := new Ep(eid);
      EidsAppend(eps, [ep]);
      r := eid;
      eid := eid + 1;
      eps := eps + [ep];
    }

    /** nn_sock_rm_ep; false stands for -EINVAL. */
    method RmEp(e: nat) returns (ok: bool)
      requires Eps() && M.Conserved(Value())
      modifies `eps, `sdeps, eps
      ensures Eps() && M.Apply(old(Value()), M.RmEp(e)) == if ok then M.Ok(Value()) else M.Refused
      ensures Owned() <= old(Owned())
      ensures !ok ==> Value() == old(Value())
    {
      var it := 0;
      while it < |eps| && eps[it].eid != e
        invariant it <= |eps| && forall j :: 0 <= j < it ==> eps[j].eid != e
      {
        it := it + 1;
      }
      if it == |eps| {
        assert e !in Eids(eps);
        return false;
      }
      assert Eids(eps)[it] == e;
      MoveEp(eps[it]);
      return true;
    }

    lemma BeforeMove(ep: Ep)
      requires Eps() && M.Conserved(Value()) && ep in eps
      ensures ep !in sdeps && ep !in Erase(eps, ep) && forall x :: x in Erase(eps, ep) ==> x in eps
      ensures M.Apply(Value(), M.RmEp(ep.eid)) ==
              M.Ok(Value().(eps := Eids(Erase(eps, ep)), sdeps := Eids(sdeps + [ep])))
    {
      InEids(eps, ep);
      ObjectsOnce(Value(), eps, sdeps);
      M.Once(Value(), ep.eid);
      Erased(eps, ep);
      EidsAppend(sdeps, [ep]);
    }

    /** Lines 553-558. */
    method MoveEp(ep: Ep)
      requires Eps() && M.Conserved(Value()) && ep in eps
      modifies `eps, `sdeps, ep
      ensures Eps() && M.Ok(Value()) == M.Apply(old(Value()), M.RmEp(ep.eid))
      ensures Owned() <= old(Owned())
    {
      BeforeMove(ep);
      eps := Erase(eps, ep);
      sdeps := sdeps + [ep];
      ep.state := Stopping;
    }

    // -------------------------------------------------------------- nn_sock_shutdown

    /** Label finish1. */
    method Finish1()
      modifies `state, `stopAsked, `termsem
      ensures Value() == M.Finish1(old(Value()))
    {
      stopAsked := false;
      state := M.Fini;
      termsem := termsem + 1;
    }

    /** Label finish2. */
    method Finish2()
      requires M.Finish2(Value()).Ok?
      modifies `state, `stopAsked, `termsem
      ensures M.Ok(Value()) == M.Finish2(old(Value()))
    {
      if sdeps != [] {
        return;
      }
      assert eps == [];
      state := M.Stopping;
      if !stops {
        Finish1();
        return;
      }
      stopAsked := true;
    }

    /** Lines 863-873: all endpoints in use are asked to stop. */
    method StopEps()
      requires Eps() && (forall ep :: ep in eps ==> ep !in sdeps) && Distinct(eps)
      modifies `eps, `sdeps, eps
      ensures Eps() && eps == [] && sdeps == old(sdeps) + old(eps)
    {
      ghost var all, before := sdeps + eps, old(eps);
      while eps != []
        invariant Eps() && sdeps + eps == all && (forall ep :: ep in eps ==> ep !in sdeps) && Distinct(eps)
        invariant forall ep :: ep in eps ==> ep in before
        decreases |eps|
      {
        var ep := eps[0];
        assert ep in eps && ep in old(eps);
        assert sdeps + [ep] + eps[1..] == sdeps + eps;
        eps := eps[1..];
        sdeps := sdeps + [ep];
        ep.state := Stopping;
      }
    }

    /** NN_FSM_STOP (lines 851-876), on an active socket. */
    method Stop()
      requires Eps() && M.Conserved(Value()) && M.Stop(Value()).Ok?
      modifies `state, `stopAsked, `termsem, `eps, `sdeps, eps
      ensures Eps() && M.Ok(Value()) == M.Stop(old(Value())) && Owned() <= old(Owned())
    {
      ObjectsOnce(Value(), eps, sdeps);
      EidsAppend(sdeps, eps);
      StopEps();
      state := M.StoppingEps;
      Finish2();
    }

    /** NN_EP_STOPPED (lines 886-890 and 974-978): the endpoint, stopped by its transport, is terminated
        and freed. */
    method EndEp(ep: Ep)
      requires Eps() && M.Conserved(Value()) && ep in sdeps
      modifies `sdeps, `ended, ep
      ensures Eps() && Value() == M.EndEp(old(Value()), ep.eid) && Owned() <= old(Owned())
    {
      InEids(sdeps, ep);
      M.Once(Value(), ep.eid);
      ObjectsOnce(Value(), eps, sdeps);
      Erased(sdeps, ep);
      ep.state := Idle;
      sdeps := Erase(sdeps, ep);
      ended := ended + [ep.eid];
    }

    /** The handlers for NN_EP_STOPPED. */
    method OnEpStopped(ep: Ep)
      requires Eps() && M.Conserved(Value()) && ep in sdeps && M.Apply(Value(), M.EpStopped(ep.eid)).Ok?
      modifies `state, `stopAsked, `termsem, `sdeps, `ended, ep
      ensures Eps() && M.Ok(Value()) == M.Apply(old(Value()), M.EpStopped(ep.eid)) && Owned() <= old(Owned())
    {
      if state == M.Active {
        EndEp(ep);
        return;
      }
      OnLastEps(ep);
    }

    /** The one for STOPPING_EPS. */
    method OnLastEps(ep: Ep)
      requires Eps() && M.Conserved(Value()) && ep in sdeps && M.Finish2(M.EndEp(Value(), ep.eid)).Ok?
      modifies `state, `stopAsked, `termsem, `sdeps, `ended, ep
      ensures Eps() && M.Ok(Value()) == M.Finish2(M.EndEp(old(Value()), ep.eid)) && Owned() <= old(Owned())
    {
      EndEp(ep);
      Finish2();
    }

    /** The protocol has stopped (line 909). */
    method OnStopped()
      requires M.Apply(Value(), M.ProtoStopped).Ok?
      modifies `state, `stopAsked, `termsem
      ensures M.Ok(Value()) == M.Apply(old(Value()), M.ProtoStopped)
    {
      assert state == M.Stopping;
      Finish1();
    }

    /** nn_close, lines 510-526; false stands for -EBADF. */
    method Close() returns (ok: bool)
      requires Eps() && M.Conserved(Value()) && !M.Apply(Value(), M.Close).Abort?
      modifies this, eps
      ensures Eps() && M.Apply(old(Value()), M.Close) == if ok then M.Ok(Value()) else M.Refused
      ensures Owned() <= old(Owned())
      ensures !ok ==> Value() == old(Value())
    {
      if state != M.Active {
        return false;
      }
      holds := holds + 1;
      Stop();
      DropHold();
      DropHold();
      closers := closers + 1;
      return true;
    }

    /** The endpoint with this id that is being stopped. */
    method StoppingEp(e: nat) returns (ep: Ep)
      requires e in Eids(sdeps)
      ensures ep in sdeps && ep.eid == e
    {
      var i :| 0 <= i < |sdeps| && Eids(sdeps)[i] == e;
      ep := sdeps[i];
    }

    /** Any call of a user. */
    method Call(step: M.Step) returns (ok: bool)
      requires Eps() && M.Conserved(Value()) && M.Enabled(Value(), step)
      requires step.Hold? || step.Rele? || step.AddEp? || step.RmEp?
      modifies this, eps, sdeps
      ensures Eps() && fresh(Owned() - old(Owned()))
      ensures M.Apply(old(Value()), step) == if ok then M.Ok(Value()) else M.Refused
      ensures !ok ==> Value() == old(Value())
    {
      ok := true;
      match step
      case Hold => ok := Hold();
      case Rele => Rele();
      case AddEp => var _ := AddEp();
      case RmEp(e) => ok := RmEp(e);
    }

    /** An event, or the first half of nn_close. */
    method Shut(step: M.Step) returns (ok: bool)
      requires Eps() && M.Conserved(Value()) && M.Enabled(Value(), step) && !M.Apply(Value(), step).Abort?
      requires step.EpStopped? || step.ProtoStopped? || step.Close?
      modifies this, eps, sdeps
      ensures Eps() && Owned() <= old(Owned())
      ensures M.Apply(old(Value()), step) == if ok then M.Ok(Value()) else M.Refused
      ensures !ok ==> Value() == old(Value())
    {
      ok := true;
      match step
      case EpStopped(e) =>
        var ep := StoppingEp(e);
        OnEpStopped(ep);
      case ProtoStopped => OnStopped();
      case Close => ok := Close();
    }

    /** Any critical section after which the socket is still there. */
    method Act(step: M.Step) returns (ok: bool)
      requires Eps() && M.Inv(Value()) && M.Enabled(Value(), step) && !step.Term?
      modifies this, eps, sdeps
      ensures Eps() && fresh(Owned() - old(Owned()))
      ensures M.Apply(old(Value()), step) == if ok then M.Ok(Value()) else M.Refused
      ensures !ok ==> Value() == old(Value())
    {
      M.StepKeeps(Value(), step);
      if step.EpStopped? || step.ProtoStopped? || step.Close? {
        ok := Shut(step);
      } else {
        ok := Call(step);
      }
    }
  }
}
