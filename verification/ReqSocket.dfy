/** struct nn_timer and struct nn_req, in place.  Every method changes the state as the function of the
    same name in TimerModel.dfy or Req.dfy says. */
module ReqSocket {
  import opened Wire
  import opened Req
  import B = Backtrace
  import T = TimerModel
  import Theory = ReqTheory

  class Timer {
    var life: T.Life
    var state: T.Life
    var timeout: int
    var tasks: seq<T.Task>
    var armed: bool

    constructor ()
      ensures Value() == T.FRESH
    {
      life, state, timeout, tasks, armed := T.Idle, T.Idle, -1, [], false;
    }

    ghost function Value(): T.Timer
      reads this
    {
      T.Timer(life, state, timeout, tasks, armed)
    }

    /** nn_worker_execute. */
    method Execute(k: T.Task)
      requires k !in tasks
      modifies `tasks
      ensures T.Ok(Value(), T.Nothing) == T.Execute(old(Value()), k)
    {
      tasks := tasks + [k];
    }

    /** nn_timer_start. */
    method Start(ms: int)
      requires T.Start(Value(), ms).Ok?
      modifies this
      ensures T.Ok(Value(), T.Nothing) == T.Start(old(Value()), ms)
    {
      assert ms >= 0;
      timeout := ms;
      assert life == T.Idle;
      state := T.Active;
      Execute(T.StartTask);
      life := T.Active;
    }

    /** nn_timer_stop. */
    method Stop()
      requires T.Stop(Value()).Ok?
      modifies this
      ensures T.Ok(Value(), T.Nothing) == T.Stop(old(Value()))
    {
      if life != T.Active {
        return;
      }
      life := T.Stopping;
      state := T.Stopping;
      Execute(T.StopTask);
    }

    /** The worker executes its first task: nn_timer_handler or nn_timer_shutdown. */
    method RunTask() returns (event: T.Event)
      requires tasks != [] && T.RunTask(Value()).Ok?
      modifies this
      ensures T.Ok(Value(), event) == T.RunTask(old(Value()))
    {
      var k := tasks[0];
      tasks := tasks[1..];
      event := T.Nothing;
      if life == T.Stopping {
        if k == T.StopTask {
          armed := false;
          state := T.Idle;
          life := T.Idle;
          event := T.Stopped;
        }
      } else {
        assert state == T.Active && timeout >= 0;
        armed := true;
        timeout := -1;
      }
    }

    /** The worker's timer expires. */
    method Expire() returns (event: T.Event)
      requires armed && T.Expire(Value()).Ok?
      modifies this
      ensures T.Ok(Value(), event) == T.Expire(old(Value()))
    {
      armed := false;
      if life == T.Stopping {
        return T.Nothing;
      }
      assert state == T.Active && timeout == -1;
      return T.Timeout;
    }
  }

  class ReqSocket {
    var life: T.Life
    var state: State
    var id: nat
    var request: Message
    var reply: Stored
    var sentTo: set<Pipe>
    var resendIvl: int
    const timer: Timer
    var pipes: set<Pipe>
    var ready: set<Pipe>
    ghost var wire: seq<(Pipe, nat, Message)>
    ghost var submitted: seq<Message>

    /** nn_req_init; the first id is random. */
    constructor (lastId: nat)
      ensures Value() == Req.Start(lastId) && fresh(timer)
    {
      life, state, id, request, reply, sentTo := T.Active, Passive, lastId, [], Blank, {};
      resendIvl, pipes, ready, wire, submitted := 60000, {}, {}, [], [];
      timer := new Timer();
    }

    ghost function Value(): Socket
      reads this, timer
    {
      Socket(life, state, id, request, reply, sentTo, resendIvl, timer.Value(), pipes, ready, wire, submitted)
    }

    /** nn_req_action_send; c is the choice the load balancer makes. */
    method ActionSend(allowDelay: bool, c: Choice)
      requires Req.ActionSend(Value(), allowDelay, c).Ok?
      modifies this, timer
      ensures Ok(Value()) == Req.ActionSend(old(Value()), allowDelay, c)
    {
      if ready == {} {
        assert allowDelay;
        state := Delayed;
        return;
      }
      if !c.stays {
        ready := ready - {c.pipe};
      }
      wire := wire + [(c.pipe, Key(id), request)];
      timer.Start(resendIvl);
      sentTo := {c.pipe};
      state := Active;
    }

    method StopTimer(next: State)
      requires Req.StopTimer(Value(), next).Ok?
      modifies this, timer
      ensures Ok(Value()) == Req.StopTimer(old(Value()), next)
    {
      timer.Stop();
      sentTo := {};
      state := next;
    }

    /** nn_req_handler. */
    method Handle(i: Input, c: Choice)
      requires Req.Handle(Value(), i, c).Ok?
      modifies this, timer
      ensures Ok(Value()) == Req.Handle(old(Value()), i, c)
    {
      match state {
        case Idle => state := Passive;
        case Passive => ActionSend(true, c);
        case Delayed =>
          if i == ActOut { ActionSend(false, c); }
        case Active =>
          StopTimer(if i == ActIn then StoppingTimer else if i == ActSent then Cancelling else TimedOut);
        case TimedOut =>
          if i == TimerStopped { ActionSend(true, c); } else { state := Cancelling; }
        case Cancelling =>
          if i == TimerStopped { ActionSend(true, c); }
        case StoppingTimer =>
          state := if i == TimerStopped then Done else Cancelling;
        case Done =>
          if i == ActReceived { state := Passive; } else { ActionSend(true, c); }
      }
    }

    /** nn_req_shutdown. */
    method Shutdown(stop: bool)
      requires Req.Shutdown(Value(), stop).Ok?
      modifies this, timer
      ensures Ok(Value()) == Req.Shutdown(old(Value()), stop)
    {
      if stop {
        timer.Stop();
        state := Stopping;
      }
      assert state == Stopping;
      if timer.life != T.Idle {
        return;
      }
      state := Idle;
      life := T.Idle;
    }

    /** nn_fsm_feed. */
    method Feed(i: Input, c: Choice)
      requires Req.Feed(Value(), i, c).Ok?
      modifies this, timer
      ensures Ok(Value()) == Req.Feed(old(Value()), i, c)
    {
      if life != T.Stopping {
        Handle(i, c);
      } else {
        Shutdown(false);
      }
    }

    predicate Busy()
      reads this
    {
      state != Idle && state != Passive && state != Stopping
    }

    /** nn_req_csend. */
    method Send(sphdr: Bytes, m: Message, c: Choice)
      requires Req.Send(Value(), sphdr, m, c).Ok?
      modifies this, timer
      ensures Ok(Value()) == Req.Send(old(Value()), sphdr, m, c)
    {
      id := (id + 1) % MAX32;
      assert sphdr == [];
      request := m;
      submitted := submitted + [m];
      Feed(ActSent, c);
    }

    /** nn_req_crecv; Blank stands for -EFSM and -EAGAIN. */
    method Recv(c: Choice) returns (r: Stored)
      requires Req.Recv(Value(), c).Ok?
      modifies this, timer
      ensures Ok(Value()) == Req.Recv(old(Value()), c)
      ensures r == if old(state) == Done then old(reply) else Blank
    {
      if !Busy() || state != Done {
        return Blank;
      }
      r := reply;
      reply := Blank;
      Feed(ActReceived, c);
    }

    /** nn_xreq_recv into task.reply, for a message that the fair queue has: false for -EAGAIN. */
    method ReceiveReply(wire: Bytes) returns (ok: bool, header: Bytes)
      modifies `reply
      ensures match B.XreqRecv(wire)
              case Dropped => !ok && reply == Dead
              case Got(m) => ok && header == m.sphdr && reply == Whole(m.body)
    {
      if |wire| < 4 {
        reply := Dead;
        return false, [];
      }
      reply := Whole(wire[4..]);
      return true, wire[..4];
    }

    /** nn_req_in, with the messages that wait in the fair queue. */
    method In(wires: seq<Bytes>, c: Choice)
      requires Req.In(Value(), wires, c).Ok?
      modifies this, timer
      ensures Ok(Value()) == Req.In(old(Value()), wires, c)
    {
      var i := 0;
      while i < |wires|
        invariant i <= |wires| && timer.Value() == old(timer.Value())
        invariant Req.In(Value(), wires[i..], c) == Req.In(old(Value()), wires, c)
      {
        assert wires[i..][1..] == wires[i + 1..];
        var ok, header := ReceiveReply(wires[i]);
        i := i + 1;
        if !ok {
          return;
        }
        if !Busy() {
          reply := Dead;
          continue;
        }
        assert |header| == 4;
        var reqid := Get32(header);
        if reqid < TOP_BIT {
          reply := Dead;
          continue;
        }
        if reqid != Key(id) {
          reply := Dead;
          continue;
        }
        if state == Active {
          Feed(ActIn, c);
        }
        return;
      }
    }

    /** nn_req_out. */
    method Out(p: Pipe, c: Choice)
      requires Req.Out(Value(), p, c).Ok?
      modifies this, timer
      ensures Ok(Value()) == Req.Out(old(Value()), p, c)
    {
      ready := ready + {p};
      if state == Delayed {
        Feed(ActOut, c);
      }
    }

    /** nn_req_rm. */
    method Remove(p: Pipe, c: Choice)
      requires Req.Remove(Value(), p, c).Ok?
      modifies this, timer
      ensures Ok(Value()) == Req.Remove(old(Value()), p, c)
    {
      pipes := pipes - {p};
      ready := ready - {p};
      if p in sentTo {
        Feed(ActPipeRm, c);
      }
    }

    /** nn_req_stop. */
    method Stop()
      requires Req.Stop(Value()).Ok?
      modifies this, timer
      ensures Ok(Value()) == Req.Stop(old(Value()))
    {
      if life != T.Active {
        return;
      }
      life := T.Stopping;
      Shutdown(true);
    }

    /** The worker enters the context for a task of the timer. */
    method WorkerTask(c: Choice)
      requires timer.tasks != [] && FromTimer(Value(), T.RunTask(timer.Value()), c).Ok?
      modifies this, timer
      ensures Ok(Value()) == FromTimer(old(Value()), T.RunTask(old(timer.Value())), c)
    {
      var event := timer.RunTask();
      Dispatch(event, c);
    }

    /** The worker enters the context because the timer expired. */
    method WorkerTimeout(c: Choice)
      requires timer.armed && FromTimer(Value(), T.Expire(timer.Value()), c).Ok?
      modifies this, timer
      ensures Ok(Value()) == FromTimer(old(Value()), T.Expire(old(timer.Value())), c)
    {
      var event := timer.Expire();
      Dispatch(event, c);
    }

    /** One critical section, whatever starts it, in a socket that is in the invariant: so a run of the object
        is a run of the value.  `got` is what a receive hands over. */
    method Perform(a: Action, c: Choice) returns (got: Stored)
      requires Theory.Inv(Value()) && Enabled(Value(), a, c)
      requires !Theory.Fails(Value(), a)
      modifies this, timer
      ensures Ok(Value()) == Step(old(Value()), a, c) && Theory.Inv(Value())
      ensures a.UserRecv? && old(state) == Done ==> got == old(reply)
    {
      Theory.StepKeeps(Value(), a, c);
      got := Blank;
      match a
      case UserSend(h, m) => Send(h, m, c);
      case UserRecv => got := Recv(c);
      case Arrive(ws) => In(ws, c);
      case PipeAdd(p) => pipes := pipes + {p};
      case PipeOut(p) => Out(p, c);
      case PipeRm(p) => Remove(p, c);
      case SetIvl(ivl) => resendIvl := ivl;
      case WorkerTask => WorkerTask(c);
      case WorkerTimeout => WorkerTimeout(c);
      case StopSocket => Stop();
    }

    /** nn_ctx_leave delivers what the timer has raised. */
    method Dispatch(event: T.Event, c: Choice)
      requires FromTimer(Value(), T.Ok(timer.Value(), event), c).Ok?
      modifies this, timer
      ensures Ok(Value()) == FromTimer(old(Value()), T.Ok(old(timer.Value()), event), c)
    {
      match event
      case Nothing =>
      case Timeout => Feed(TimerTimeout, c);
      case Stopped => Feed(TimerStopped, c);
    }
  }
}
