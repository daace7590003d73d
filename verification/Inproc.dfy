/** An inproc connection: two sessions (transports/inproc/sinproc.c) with their pipes (core/pipe.c)
    and the events in flight between them, from the moment both are ACTIVE.

    One step is one critical section: ctx.c processes the events a context raises to itself before it
    unlocks, so the socket learns of NN_PIPE_IN and NN_PIPE_OUT, and the owner of a session of
    NN_SINPROC_DISCONNECT, within the step that raises them.  Events raised to the peer wait in the
    peer's inbox, in the order in which they were raised. */
module Inproc {

  import opened Wire

  type Message = Bytes

  /** States of a session; Stopped is the state after nn_fsm_stopped. */
  datatype State = Active | Disconnected | StoppingPeer | Stopping | Stopped

  datatype Event = Sent | Received | Disconnect

  /** NN_PIPEBASE_INSTATE_* and NN_PIPEBASE_OUTSTATE_* once the pipe is started; Done stands for
      RECEIVED and SENT, Busy for RECEIVING and SENDING. */
  datatype PipeState = Idle | Busy | Done | Async

  /** A binproc stops a session that reports a disconnect (binproc.c:239-241), a cinproc only counts
      it (cinproc.c:232-235). */
  datatype Owner = Binproc | Cinproc

  datatype Session = Session(
    owner: Owner,
    state: State,
    sending: bool,           // NN_SINPROC_FLAG_SENDING
    receiving: bool,         // NN_SINPROC_FLAG_RECEIVING
    msg: Message,            // the message exposed to the peer
    queue: seq<Message>,     // msgqueue
    maxmem: nat,
    attached: bool,          // pipebase.state == ACTIVE: the socket knows the pipe
    instate: PipeState,
    outstate: PipeState,
    readable: bool,          // the pipe is active in the socket's fair queue
    writable: bool,          // the pipe is active in the socket's load balancer
    inbox: seq<Event>,       // events raised by the peer and not yet processed
    handed: seq<Message>,    // history: messages this side's user has sent
    taken: seq<Message>)     // history: messages this side's user has received

  function Fresh(owner: Owner, maxmem: nat): Session {
    Session(owner, Active, false, false, [], [], maxmem, true, Async, Idle, false, true, [], [], [])
  }

  /** Abort: an nn_assert fails or an nn_fsm_bad_* branch is reached.  Otherwise the new states of the
      session that acts and of its peer. */
  datatype Outcome = Abort | Ok(self: Session, peer: Session)

  function Mem(q: seq<Message>): nat {
    if q == [] then 0 else |q[0]| + Mem(q[1..])
  }

  /** nn_msgqueue_send succeeds. */
  predicate Accepts(q: seq<Message>, m: Message, maxmem: nat) {
    q == [] || Mem(q) + |m| < maxmem
  }

  // ---------------------------------------------------------------- events and pipe

  /** nn_fsm_raiseto: an event object that is already queued must not be queued again. */
  predicate CanRaise(target: Session, e: Event) { e !in target.inbox }

  function Raise(target: Session, e: Event): Session { target.(inbox := target.inbox + [e]) }

  /** nn_pipebase_received, with the NN_PIPE_IN event delivered to the socket. */
  predicate CanReceived(x: Session) { x.instate == Busy || x.instate == Async }

  function PipeReceived(x: Session): Session {
    if x.instate == Busy then x.(instate := Done) else x.(instate := Idle, readable := true)
  }

  /** nn_pipebase_sent, with the NN_PIPE_OUT event delivered to the socket. */
  predicate CanSent(x: Session) { x.outstate == Busy || x.outstate == Async }

  function PipeSent(x: Session): Session {
    if x.outstate == Busy then x.(outstate := Done) else x.(outstate := Idle, writable := true)
  }

  /** nn_pipebase_stop: the socket forgets the pipe. */
  function PipeStop(x: Session): Session {
    x.(attached := false, readable := false, writable := false)
  }

  // ---------------------------------------------------------------- user calls

  /** nn_pipe_send on a pipe that the load balancer picked, and nn_sinproc_send under it. */
  function Send(x: Session, y: Session, m: Message): Outcome {
    if x.outstate != Idle || x.state != Active || x.sending || !CanRaise(y, Sent) then Abort
    else
      Ok(x.(msg := m, sending := true, outstate := Async, writable := false, handed := x.handed + [m]),
         Raise(y, Sent))
  }

  /** nn_sinproc_recv: hand over the first message, then let a message of the peer in that was waiting
      for room. */
  function Take(x: Session, y: Session): Outcome {
    if !(x.state == Active || x.state == Disconnected) || x.queue == [] then Abort
    else
      var x1 := x.(queue := x.queue[1..], taken := x.taken + [x.queue[0]]);
      var r := if x1.state != Disconnected then LetIn(x1, y) else Ok(x1, y);
      if r.Ok? && r.self.queue != [] then
        if CanReceived(r.self) then Ok(PipeReceived(r.self), r.peer) else Abort
      else r
  }

  function LetIn(x: Session, y: Session): Outcome {
    if !x.receiving || !Accepts(x.queue, y.msg, x.maxmem) then Ok(x, y)
    else if !CanRaise(y, Received) then Abort
    else Ok(x.(queue := x.queue + [y.msg], receiving := false), Raise(y.(msg := []), Received))
  }

  /** nn_pipe_recv on a pipe that the fair queue picked, and nn_sinproc_recv under it. */
  function Recv(x: Session, y: Session): Outcome {
    if x.instate != Idle then Abort
    else
      var r := Take(x.(instate := Busy), y);
      if r.Abort? then Abort
      else
        Ok(if r.self.instate == Done then r.self.(instate := Idle) else r.self.(instate := Async, readable := false),
           r.peer)
  }

  lemma RecvIs(x: Session, y: Session)
    requires Recv(x, y).Ok?
    ensures var r := Take(x.(instate := Busy), y);
            && x.instate == Idle && x.queue != [] && r.Ok? && (r.self.instate == Busy || r.self.instate == Done)
            && Recv(x, y).peer == r.peer
            && Recv(x, y).self == if r.self.instate == Done then r.self.(instate := Idle)
                                  else r.self.(instate := Async, readable := false)
  {
  }

  // ---------------------------------------------------------------- stopping

  /** The end of nn_sinproc_shutdown: report STOPPED unless an event is still on its way. */
  function Finish(x: Session, y: Session): Outcome {
    if x.state != Stopping || Received in x.inbox || Disconnect in x.inbox then Ok(x, y)
    else if Sent in x.inbox then Abort
    else Ok(x.(state := Stopped), y)
  }

  /** nn_sinproc_stop. */
  function Stop(x: Session, y: Session): Outcome {
    if x.state == StoppingPeer || x.state == Stopping || x.state == Stopped then Ok(x, y)
    else if x.state == Disconnected then Finish(x.(state := Stopping), y)
    else if !CanRaise(y, Disconnect) then Abort
    else Ok(PipeStop(x).(state := StoppingPeer), Raise(y, Disconnect))
  }

  // ---------------------------------------------------------------- events from the peer

  /** nn_sinproc_handler, case ACTIVE. */
  function HandleActive(x: Session, y: Session, e: Event): Outcome {
    match e
    case Sent =>
      if !Accepts(x.queue, y.msg, x.maxmem) then Ok(x.(receiving := true), y)
      else if (x.queue == [] && !CanReceived(x)) || !CanRaise(y, Received) then Abort
      else
        var x1 := x.(queue := x.queue + [y.msg]);
        Ok(if x.queue == [] then PipeReceived(x1) else x1, Raise(y.(msg := []), Received))
    case Received =>
      if !x.sending || !CanSent(x) then Abort
      else Ok(PipeSent(x).(sending := false), y)
    case Disconnect =>
      if !CanRaise(y, Disconnect) then Abort
      else
        var x1 := PipeStop(x).(state := Disconnected);
        var y1 := Raise(y, Disconnect);
        if x.owner == Binproc then Stop(x1, y1) else Ok(x1, y1)
  }

  /** nn_sinproc_shutdown for an event from the peer. */
  function HandleShutdown(x: Session, y: Session, e: Event): Outcome {
    if e == Received then Finish(x, y)
    else if x.state != StoppingPeer then Abort
    else if e == Disconnect then Finish(x.(state := Stopping), y)
    else Ok(x, y)
  }

  /** The next event from the peer is processed. */
  function Deliver(x: Session, y: Session): Outcome
    requires x.inbox != []
  {
    var e := x.inbox[0];
    var x1 := x.(inbox := x.inbox[1..]);
    match x.state
    case Active => HandleActive(x1, y, e)
    case Disconnected => if e == Received then Ok(x1, y) else Abort
    case _ => if x.state == Stopped then Abort else HandleShutdown(x1, y, e)
  }

  // ---------------------------------------------------------------- the two-party system

  datatype Action = UserSend(m: Message) | UserRecv | Process | UserStop

  /** What may happen next at a session: a user call on a pipe its socket offers, the next event, or
      a stop at any time. */
  predicate Enabled(x: Session, a: Action) {
    match a
    case UserSend(_) => x.writable
    case UserRecv => x.readable
    case Process => x.inbox != []
    case UserStop => true
  }

  function Act(x: Session, y: Session, a: Action): Outcome
    requires Enabled(x, a)
  {
    match a
    case UserSend(m) => Send(x, y, m)
    case UserRecv => Recv(x, y)
    case Process => Deliver(x, y)
    case UserStop => Stop(x, y)
  }
}
