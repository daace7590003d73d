/** struct nn_sinproc with its pipe, in place.  Every method does to the pair of sessions what the
    function of the same name in Inproc.dfy says. */
module Sinproc {
  import opened Inproc

  class Session {
    const owner: Owner
    const maxmem: nat
    var state: State
    var sending: bool
    var receiving: bool
    var peer: Session?
    var msg: Message
    var msgqueue: seq<Message>
    var attached: bool
    var instate: PipeState
    var outstate: PipeState
    var readable: bool
    var writable: bool
    var inbox: seq<Event>
    ghost var handed: seq<Message>
    ghost var taken: seq<Message>

    /** A session as the handshake leaves it: ACTIVE, pipe started, NN_PIPE_OUT delivered. */
    constructor (owner: Owner, maxmem: nat)
      ensures Value() == Fresh(owner, maxmem) && peer == null
    {
      this.owner, this.maxmem := owner, maxmem;
      state, sending, receiving, peer := Active, false, false, null;
      msg, msgqueue, inbox := [], [], [];
      attached, instate, outstate, readable, writable := true, Async, Idle, false, true;
      handed, taken := [], [];
    }

    ghost function Value(): Inproc.Session
      reads this
    {
      Inproc.Session(owner, state, sending, receiving, msg, msgqueue, maxmem, attached, instate, outstate,
                     readable, writable, inbox, handed, taken)
    }

    /** y is the other end.  A session forgets its peer when it learns of the disconnect. */
    ghost predicate Linked(y: Session)
      reads this
    {
      y != this && (peer == y || (peer == null && (state == Disconnected || state == Stopping || state == Stopped)))
    }

    // -------------------------------------------------------------- pipe

    /** nn_pipebase_received. */
    method PipebaseReceived()
      requires CanReceived(Value())
      modifies `instate, `readable
      ensures Value() == PipeReceived(old(Value()))
    {
      if instate == Busy {
        instate := Done;
        return;
      }
      assert instate == Async;
      instate := Idle;
      readable := true;
    }

    /** nn_pipebase_sent. */
    method PipebaseSent()
      requires CanSent(Value())
      modifies `outstate, `writable
      ensures Value() == PipeSent(old(Value()))
    {
      if outstate == Busy {
        outstate := Done;
        return;
      }
      assert outstate == Async;
      outstate := Idle;
      writable := true;
    }

    /** nn_pipebase_stop. */
    method PipebaseStop()
      modifies `attached, `readable, `writable
      ensures Value() == PipeStop(old(Value()))
    {
      attached, readable, writable := false, false, false;
    }

    /** nn_msgqueue_send; see MsgQueue.dfy for the chunks behind it. */
    method QueueSend(m: Message) returns (ok: bool)
      modifies `msgqueue
      ensures ok == Accepts(old(msgqueue), m, maxmem)
      ensures msgqueue == if ok then old(msgqueue) + [m] else old(msgqueue)
    {
      if msgqueue != [] && Mem(msgqueue) + |m| >= maxmem {
        return false;
      }
      msgqueue := msgqueue + [m];
      return true;
    }

    /** nn_fsm_raiseto. */
    method RaiseTo(e: Event)
      requires CanRaise(Value(), e)
      modifies `inbox
      ensures Value() == Raise(old(Value()), e)
    {
      inbox := inbox + [e];
    }

    // -------------------------------------------------------------- user calls

    /** nn_pipe_send.  The peer gets the header and the body of the message in one piece. */
    method SendMessage(sphdr: Message, body: Message)
      requires peer != null && peer != this && Send(Value(), peer.Value(), sphdr + body).Ok?
      modifies this, peer
      ensures peer == old(peer)
      ensures Ok(Value(), peer.Value()) == Send(old(Value()), old(peer.Value()), sphdr + body)
    {
      assert outstate == Idle;
      outstate := Busy;
      SinprocSend(sphdr, body);
      assert outstate == Busy; // an inproc message is never gone at once
      outstate := Async;
      writable := false;
    }

    /** nn_sinproc_send. */
    method SinprocSend(sphdr: Message, body: Message)
      requires peer != null && peer != this && state == Active && !sending && CanRaise(peer.Value(), Sent)
      modifies `msg, `sending, `handed, peer`inbox
      ensures Value() == old(Value()).(msg := sphdr + body, sending := true, handed := old(handed) + [sphdr + body])
      ensures peer.Value() == Raise(old(peer.Value()), Sent)
    {
      assert state == Active && !sending;
      msg := sphdr + body;
      sending := true;
      handed := handed + [msg];
      peer.RaiseTo(Sent);
    }

    /** nn_pipe_recv. */
    method RecvMessage() returns (m: Message)
      requires peer != null && peer != this && Recv(Value(), peer.Value()).Ok?
      modifies this, peer
      ensures peer == old(peer) && m == old(msgqueue[0])
      ensures Ok(Value(), peer.Value()) == Recv(old(Value()), old(peer.Value()))
    {
      RecvIs(Value(), peer.Value());
      assert instate == Idle;
      instate := Busy;
      m := SinprocRecv();
      EndRecv();
    }

    /** Lines 207-213 of pipe.c. */
    method EndRecv()
      requires instate == Busy || instate == Done
      modifies `instate, `readable
      ensures Value() == if old(instate) == Done then old(Value()).(instate := Idle)
                         else old(Value()).(instate := Async, readable := false)
    {
      if instate == Done {
        instate := Idle;
        return;
      }
      assert instate == Busy;
      instate := Async;
      readable := false;
    }

    /** nn_sinproc_recv. */
    method SinprocRecv() returns (m: Message)
      requires peer != null && peer != this && Take(Value(), peer.Value()).Ok?
      modifies this, peer
      ensures peer == old(peer) && m == old(msgqueue[0])
      ensures Ok(Value(), peer.Value()) == Take(old(Value()), old(peer.Value()))
    {
      assert state == Active || state == Disconnected;
      m := msgqueue[0];
      msgqueue := msgqueue[1..];
      taken := taken + [m];
      if state != Disconnected {
        LetMessageIn();
      }
      if msgqueue != [] {
        PipebaseReceived();
      }
    }

    /** Lines 196-207. */
    method LetMessageIn()
      requires peer != null && peer != this && LetIn(Value(), peer.Value()).Ok?
      modifies this, peer
      ensures peer == old(peer)
      ensures Ok(Value(), peer.Value()) == LetIn(old(Value()), old(peer.Value()))
    {
      if receiving {
        var ok := QueueSend(peer.msg);
        if ok {
          peer.msg := [];
          peer.RaiseTo(Received);
          receiving := false;
        }
      }
    }

    // -------------------------------------------------------------- stopping

    /** The end of nn_sinproc_shutdown (lines 290-310). */
    method CheckFinished(ghost y: Session)
      requires y != this && Finish(Value(), y.Value()).Ok?
      modifies `state
      ensures Ok(Value(), y.Value()) == Finish(old(Value()), old(y.Value()))
    {
      if state != Stopping {
        return;
      }
      if Received in inbox || Disconnect in inbox {
        return;
      }
      assert Sent !in inbox;
      state := Stopped;
    }

    /** nn_sinproc_stop. */
    method StopSession(ghost y: Session)
      requires Linked(y) && Stop(Value(), y.Value()).Ok?
      modifies this, y
      ensures Linked(y)
      ensures Ok(Value(), y.Value()) == Stop(old(Value()), old(y.Value())) && y.peer == old(y.peer)
    {
      if state == StoppingPeer || state == Stopping || state == Stopped {
        return;
      }
      if state != Disconnected {
        PipebaseStop();
        peer.RaiseTo(Disconnect);
        state := StoppingPeer;
      } else {
        state := Stopping;
      }
      CheckFinished(y);
    }

    // -------------------------------------------------------------- events

    /** nn_fsm_event_process for the first event in flight to this session. */
    method ProcessEvent(ghost y: Session)
      requires Linked(y) && inbox != [] && Deliver(Value(), y.Value()).Ok?
      modifies this, y
      ensures Linked(y)
      ensures Ok(Value(), y.Value()) == Deliver(old(Value()), old(y.Value())) && y.peer == old(y.peer)
    {
      var e := inbox[0];
      inbox := inbox[1..];
      if state == Active {
        match e
        case Sent => OnSent(y);
        case Received => OnReceived();
        case Disconnect => OnDisconnect(y);
      } else if state != Disconnected && e != Received {
        assert state == StoppingPeer;
        if e == Disconnect {
          state := Stopping;
        }
        CheckFinished(y);
      } else if state != Disconnected {
        CheckFinished(y);
      }
    }

    /** Lines 426-449. */
    method OnSent(ghost y: Session)
      requires peer == y && y != this && HandleActive(Value(), y.Value(), Sent).Ok?
      modifies this, y
      ensures peer == old(peer) && state == old(state) && y.peer == old(y.peer)
      ensures Ok(Value(), y.Value()) == HandleActive(old(Value()), old(y.Value()), Sent)
    {
      var empty := msgqueue == [];
      var ok := QueueSend(peer.msg);
      if !ok {
        receiving := true;
        return;
      }
      peer.msg := [];
      if empty {
        PipebaseReceived();
      }
      peer.RaiseTo(Received);
    }

    /** Lines 451-455. */
    method OnReceived()
      requires sending && CanSent(Value())
      modifies this
      ensures peer == old(peer) && state == old(state)
      ensures Value() == PipeSent(old(Value())).(sending := false)
    {
      assert sending;
      PipebaseSent();
      sending := false;
    }

    /** Lines 457-466, and the owner's answer to the event of line 464. */
    method OnDisconnect(ghost y: Session)
      requires peer == y && y != this && HandleActive(Value(), y.Value(), Disconnect).Ok? && state == Active
      modifies this, y
      ensures Linked(y) && y.peer == old(y.peer)
      ensures Ok(Value(), y.Value()) == HandleActive(old(Value()), old(y.Value()), Disconnect)
    {
      PipebaseStop();
      peer.RaiseTo(Disconnect);
      state := Disconnected;
      peer := null;
      if owner == Binproc {
        StopSession(y);
      }
    }
  }
}
