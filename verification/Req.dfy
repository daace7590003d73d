/** The REQ socket (protocols/reqrep/req.c) over the raw socket below it (xreq.c, lb.c) and its resend
    timer.  One step is one critical section of the socket. */
module Req {
  import opened Wire
  import B = Backtrace
  import T = TimerModel

  type Pipe = nat
  type Message = Bytes

  /** NN_REQ_STATE_*. */
  datatype State = Idle | Passive | Delayed | Active | TimedOut | Cancelling | StoppingTimer | Done | Stopping

  /** Actions and events the machine reacts to. */
  datatype Input = ActStart | ActIn | ActOut | ActSent | ActReceived | ActPipeRm | TimerTimeout | TimerStopped

  /** task.reply: initialised, a received message, or a message that has been terminated (its memory
      is gone, but the field still holds it). */
  datatype Stored = Blank | Whole(body: Message) | Dead

  /** `pipes` are attached to the socket, `ready` the ones active in the load balancer; `wire` and
      `submitted` record what went to which pipe and what the user sent. */
  datatype Socket = Socket(
    life: T.Life,
    state: State,
    id: nat,
    request: Message,
    reply: Stored,
    sentTo: set<Pipe>,          // at most one pipe; {} is NULL
    resendIvl: int,
    timer: T.Timer,
    pipes: set<Pipe>,
    ready: set<Pipe>,
    wire: seq<(Pipe, nat, Message)>,
    submitted: seq<Message>)

  datatype Result = Abort | Ok(socket: Socket)

  /** task.id | 0x80000000 */
  function Key(id: nat): nat { if (id / TOP_BIT) % 2 == 1 then id else id + TOP_BIT }

  /** The load balancer's choice for one send: a ready pipe, and whether it stays ready. */
  datatype Choice = Choice(pipe: Pipe, stays: bool)

  predicate Fair(s: Socket, c: Choice) { s.ready != {} ==> c.pipe in s.ready }

  predicate InProgress(s: Socket) {
    s.state != Idle && s.state != Passive && s.state != Stopping
  }

  // ---------------------------------------------------------------- the state machine

  /** nn_req_action_send. */
  function ActionSend(s: Socket, allowDelay: bool, c: Choice): Result {
    if s.ready == {} then
      if allowDelay then Ok(s.(state := Delayed)) else Abort
    else
      match T.Start(s.timer, s.resendIvl)
      case Abort => Abort
      case Ok(timer, _) =>
        Ok(s.(timer := timer, sentTo := {c.pipe}, state := Active,
              ready := if c.stays then s.ready else s.ready - {c.pipe},
              wire := s.wire + [(c.pipe, Key(s.id), s.request)]))
  }

  /** nn_timer_stop on the way to another state. */
  function StopTimer(s: Socket, next: State): Result {
    match T.Stop(s.timer)
    case Abort => Abort
    case Ok(timer, _) => Ok(s.(timer := timer, sentTo := {}, state := next))
  }

  /** nn_req_handler. */
  function Handle(s: Socket, i: Input, c: Choice): Result {
    match s.state
    case Idle => if i == ActStart then Ok(s.(state := Passive)) else Abort
    case Passive => if i == ActSent then ActionSend(s, true, c) else Abort
    case Delayed =>
      if i == ActOut then ActionSend(s, false, c)
      else if i == ActSent then Ok(s)
      else Abort
    case Active =>
      if i == ActIn then StopTimer(s, StoppingTimer)
      else if i == ActSent then StopTimer(s, Cancelling)
      else if i == ActPipeRm || i == TimerTimeout then StopTimer(s, TimedOut)
      else Abort
    case TimedOut =>
      if i == TimerStopped then ActionSend(s, true, c)
      else if i == ActSent then Ok(s.(state := Cancelling))
      else Abort
    case Cancelling =>
      if i == TimerStopped then ActionSend(s, true, c)
      else if i == ActSent then Ok(s)
      else Abort
    case StoppingTimer =>
      if i == TimerStopped then Ok(s.(state := Done))
      else if i == ActSent then Ok(s.(state := Cancelling))
      else Abort
    case Done =>
      if i == ActReceived then Ok(s.(state := Passive))
      else if i == ActSent then ActionSend(s, true, c)
      else Abort
    case Stopping => Abort
  }

  /** nn_req_shutdown. */
  function Shutdown(s: Socket, stop: bool): Result {
    match (if stop then T.Stop(s.timer) else T.Ok(s.timer, T.Nothing))
    case Abort => Abort
    case Ok(timer, _) =>
      var s1 := if stop then s.(timer := timer, state := Stopping) else s;
      if s1.state != Stopping then Abort
      else if !T.IsIdle(s1.timer) then Ok(s1)
      else Ok(s1.(state := Idle, life := T.Idle))
  }

  /** nn_fsm_feed. */
  function Feed(s: Socket, i: Input, c: Choice): Result {
    if s.life != T.Stopping then Handle(s, i, c) else Shutdown(s, false)
  }

  // ---------------------------------------------------------------- calls from the socket

  /** The new request and its id, in task.request and task.id. */
  function Submit(s: Socket, m: Message): Socket {
    s.(id := (s.id + 1) % MAX32, request := m, submitted := s.submitted + [m])
  }

  /** nn_req_csend: the message must not have a header of its own, which nn_sendmsg takes from the user. */
  function Send(s: Socket, sphdr: Bytes, m: Message, c: Choice): Result {
    if sphdr != [] then Abort else Feed(Submit(s, m), ActSent, c)
  }

  /** nn_req_crecv succeeds exactly in DONE. */
  function Recv(s: Socket, c: Choice): Result {
    if s.state != Done then Ok(s)
    else Feed(s.(reply := Blank), ActReceived, c)
  }

  /** The reply passes all checks of nn_req_in. */
  predicate Answers(s: Socket, m: B.Message) {
    && InProgress(s)
    && |m.sphdr| == 4
    && Get32(m.sphdr) >= TOP_BIT
    && Get32(m.sphdr) == Key(s.id)
  }

  /** The loop of nn_req_in over the messages that wait in the fair queue.  Every one is received into
      task.reply, whatever the state.  The loop ends when none is left, at one that is too short, which
      nn_xreq_recv throws away with -EAGAIN, and at the first one that answers. */
  function In(s: Socket, wires: seq<Bytes>, c: Choice): Result
    decreases |wires|
  {
    if wires == [] then Ok(s)
    else
      match B.XreqRecv(wires[0])
      case Dropped => Ok(s.(reply := Dead))
      case Got(m) =>
        if !Answers(s, m) then In(s.(reply := Dead), wires[1..], c)
        else
          var s1 := s.(reply := Whole(m.body));
          if s1.state == Active then Feed(s1, ActIn, c) else Ok(s1)
  }

  /** nn_req_out. */
  function Out(s: Socket, p: Pipe, c: Choice): Result {
    var s1 := s.(ready := s.ready + {p});
    if s1.state == Delayed then Feed(s1, ActOut, c) else Ok(s1)
  }

  /** nn_req_rm. */
  function Remove(s: Socket, p: Pipe, c: Choice): Result {
    var s1 := s.(pipes := s.pipes - {p}, ready := s.ready - {p});
    if p in s1.sentTo then Feed(s1, ActPipeRm, c) else Ok(s1)
  }

  /** nn_req_stop. */
  function Stop(s: Socket): Result {
    if s.life != T.Active then Ok(s) else Shutdown(s.(life := T.Stopping), true)
  }

  /** The worker enters the context of the socket; what the timer raises reaches the machine before
      the context is left. */
  function FromTimer(s: Socket, r: T.Result, c: Choice): Result {
    match r
    case Abort => Abort
    case Ok(timer, e) =>
      var s1 := s.(timer := timer);
      match e
      case Nothing => Ok(s1)
      case Timeout => Feed(s1, TimerTimeout, c)
      case Stopped => Feed(s1, TimerStopped, c)
  }

  // ---------------------------------------------------------------- steps

  datatype Action =
    | UserSend(sphdr: Bytes, m: Message)
    | UserRecv
    | Arrive(wires: seq<Bytes>)
    | PipeAdd(p: Pipe)
    | PipeOut(p: Pipe)
    | PipeRm(p: Pipe)
    | SetIvl(ivl: int)
    | WorkerTask
    | WorkerTimeout
    | StopSocket

  /** A socket of which nn_req_init has started the machine. */
  function Start(id: nat): Socket {
    Socket(T.Active, Passive, id, [], Blank, {}, 60000, T.FRESH, {}, {}, [], [])
  }

  /** The pipes that are ready when the load balancer chooses. */
  function ReadyAt(s: Socket, a: Action): set<Pipe> {
    match a
    case PipeOut(p) => s.ready + {p}
    case PipeRm(p) => s.ready - {p}
    case _ => s.ready
  }

  /** nn_sock_shutdown calls nn_req_stop once every endpoint, and so every pipe, is gone; from then on
      only the worker has something to say. */
  predicate Enabled(s: Socket, a: Action, c: Choice) {
    && (ReadyAt(s, a) != {} ==> c.pipe in ReadyAt(s, a))
    && match a
       case PipeAdd(p) => p !in s.pipes && s.life == T.Active
       case PipeOut(p) => p in s.pipes && p !in s.ready && s.life == T.Active
       case PipeRm(p) => p in s.pipes && s.life == T.Active
       case SetIvl(ivl) => true
       case WorkerTask => s.timer.tasks != []
       case WorkerTimeout => s.timer.armed
       case StopSocket => s.pipes == {}
       case _ => s.life == T.Active
  }

  function Step(s: Socket, a: Action, c: Choice): Result
    requires Enabled(s, a, c)
  {
    match a
    case UserSend(h, m) => Send(s, h, m, c)
    case UserRecv => Recv(s, c)
    case Arrive(ws) => In(s, ws, c)
    case PipeAdd(p) => Ok(s.(pipes := s.pipes + {p}))
    case PipeOut(p) => Out(s, p, c)
    case PipeRm(p) => Remove(s, p, c)
    case SetIvl(ivl) => Ok(s.(resendIvl := ivl))
    case WorkerTask => FromTimer(s, T.RunTask(s.timer), c)
    case WorkerTimeout => FromTimer(s, T.Expire(s.timer), c)
    case StopSocket => Stop(s)
  }
}
