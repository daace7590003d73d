/** The SURVEYOR socket (protocols/survey/surveyor.c) and its deadline timer. */
module Surveyor {
  import opened Wire
  import T = TimerModel
  import H = ReqSocket

  type Message = Bytes

  /** NN_SURVEYOR_STATE_*. */
  datatype State = Idle | Passive | Active | Cancelling | StoppingTimer | Stopping

  datatype Input = ActStart | ActCancel | TimerTimeout | TimerStopped

  /** `wire` records the surveys that went out, with their ids. */
  datatype Socket = Socket(
    life: T.Life, state: State, surveyid: nat, tosend: Message, deadline: int, timedout: bool,
    timer: T.Timer, wire: seq<(nat, Message)>)

  datatype Result = Abort | Ok(socket: Socket)

  /** The id after ++surveyid; surveyid |= 0x80000000. */
  function NextId(id: nat): nat {
    var n := (id + 1) % MAX32;
    if n >= TOP_BIT then n else n + TOP_BIT
  }

  predicate InProgress(s: Socket) {
    s.state != Idle && s.state != Passive && s.state != Stopping
  }

  /** nn_surveyor_resend, nn_timer_start and the move to ACTIVE. */
  function Launch(s: Socket): Result {
    match T.Start(s.timer, s.deadline)
    case Abort => Abort
    case Ok(timer, _) => Ok(s.(timer := timer, state := Active, wire := s.wire + [(s.surveyid, s.tosend)]))
  }

  function StopTimer(s: Socket, next: State, timedout: bool): Result {
    match T.Stop(s.timer)
    case Abort => Abort
    case Ok(timer, _) => Ok(s.(timer := timer, state := next, timedout := timedout))
  }

  /** nn_surveyor_handler. */
  function Handle(s: Socket, i: Input): Result {
    match s.state
    case Passive => if i == ActStart then Launch(s) else Abort
    case Active =>
      if i == ActCancel then StopTimer(s, Cancelling, s.timedout)
      else if i == TimerTimeout then StopTimer(s, StoppingTimer, true)
      else Abort
    case Cancelling =>
      if i == ActCancel then Ok(s) else if i == TimerStopped then Launch(s) else Abort
    case StoppingTimer =>
      if i == ActCancel then Ok(s.(state := Cancelling))
      else if i == TimerStopped then Ok(s.(state := Passive))
      else Abort
    case _ => Abort
  }

  /** nn_surveyor_shutdown. */
  function Shutdown(s: Socket, stop: bool): Result {
    match (if stop then T.Stop(s.timer) else T.Ok(s.timer, T.Nothing))
    case Abort => Abort
    case Ok(timer, _) =>
      var s1 := if stop then s.(timer := timer, state := Stopping) else s;
      if s1.state != Stopping then Abort
      else if !T.IsIdle(s1.timer) then Ok(s1)
      else Ok(s1.(state := Idle, life := T.Idle))
  }

  function Feed(s: Socket, i: Input): Result {
    if s.life != T.Stopping then Handle(s, i) else Shutdown(s, false)
  }

  /** The new survey and its id. */
  function Submit(s: Socket, m: Message): Socket { s.(surveyid := NextId(s.surveyid), tosend := m) }

  /** nn_surveyor_send: the message must not have a header of its own, which nn_sendmsg takes from the user.
      The raw socket signals OUT all the time, so line 219 is never reached. */
  function Send(s: Socket, sphdr: Bytes, m: Message): Result {
    if sphdr != [] then Abort
    else
      var s1 := Submit(s, m);
      if InProgress(s1) then Feed(s1, ActCancel) else Feed(s1, ActStart)
  }

  /** What nn_surveyor_recv returns. */
  datatype Received = Efsm | Etimedout | Eagain | Got(body: Message)

  /** A message that the raw socket splits into header and body carries the id of the current survey. */
  predicate Current(s: Socket, wire: Bytes) {
    |wire| >= 4 && Get32(wire[..4]) == s.surveyid
  }

  /** Where the loop of nn_surveyor_recv ends: at the first response to the current survey, or at one that is
      too short, for which nn_xsurveyor_recv returns -EAGAIN; |ws| if there is none. */
  function RecvEnd(s: Socket, ws: seq<Bytes>): (k: nat)
    ensures k <= |ws| && (k < |ws| ==> |ws[k]| < 4 || Current(s, ws[k]))
    ensures forall j :: 0 <= j < k ==> |ws[j]| >= 4 && !Current(s, ws[j])
  {
    if ws == [] || |ws[0]| < 4 || Current(s, ws[0]) then 0 else 1 + RecvEnd(s, ws[1..])
  }

  function FromTimer(s: Socket, r: T.Result): Result {
    match r
    case Abort => Abort
    case Ok(timer, e) =>
      var s1 := s.(timer := timer);
      match e
      case Nothing => Ok(s1)
      case Timeout => Feed(s1, TimerTimeout)
      case Stopped => Feed(s1, TimerStopped)
  }

  datatype Action =
    | UserSend(sphdr: Bytes, m: Message) | UserRecv | SetDeadline(ms: int) | WorkerTask | WorkerTimeout | StopSocket

  predicate Enabled(s: Socket, a: Action) {
    match a
    case SetDeadline(ms) => true
    case WorkerTask => s.timer.tasks != []
    case WorkerTimeout => s.timer.armed
    case StopSocket => true
    case _ => s.life == T.Active
  }

  function Step(s: Socket, a: Action): Result
    requires Enabled(s, a)
  {
    match a
    case UserSend(h, m) => Send(s, h, m)
    case UserRecv => Ok(if !InProgress(s) then s.(timedout := false) else s)
    case SetDeadline(ms) => Ok(s.(deadline := ms))
    case WorkerTask => FromTimer(s, T.RunTask(s.timer))
    case WorkerTimeout => FromTimer(s, T.Expire(s.timer))
    case StopSocket => if s.life != T.Active then Ok(s) else Shutdown(s.(life := T.Stopping), true)
  }

  function Start(id: nat): Socket {
    Socket(T.Active, Passive, id, [], 1000, false, T.FRESH, [])
  }

  // ---------------------------------------------------------------- in step with the timer

  function TimerFor(state: State): T.Life {
    match state
    case Active => T.Active
    case Cancelling | StoppingTimer | Stopping => T.Stopping
    case _ => T.Idle
  }

  predicate Inv(s: Socket) {
    && T.Inv(s.timer) && s.timer.life == TimerFor(s.state)
    && (s.life == T.Active <==> s.state != Idle && s.state != Stopping)
    && (s.life == T.Stopping <==> s.state == Stopping)
    && s.surveyid < MAX32 && (InProgress(s) ==> s.surveyid >= TOP_BIT)
    && (s.state == Active ==> s.wire != [] && s.wire[|s.wire| - 1] == (s.surveyid, s.tosend))
  }

  /** The steps in which the machine sends a survey, and so starts the timer. */
  predicate StartsTimer(s: Socket, a: Action) {
    match a
    case UserSend(_, _) => s.state == Passive
    case WorkerTask => s.state == Cancelling && s.timer.tasks != [] && s.timer.tasks[0] == T.StopTask
    case _ => false
  }

  /** The steps that fail an assertion: a survey that has an SP header of its own (line 203), and a start of
      the timer with a negative deadline (timer.c:79). */
  predicate Fails(s: Socket, a: Action) {
    (a.UserSend? && a.sphdr != []) || (s.deadline < 0 && StartsTimer(s, a))
  }

  lemma LaunchKeeps(s: Socket)
    requires T.Inv(s.timer) && s.timer.life == T.Idle && s.life == T.Active && TOP_BIT <= s.surveyid < MAX32
    ensures Launch(s).Abort? <==> s.deadline < 0
    ensures Launch(s).Ok? ==> Inv(Launch(s).socket)
  {
    T.StartKeeps(s.timer, s.deadline);
  }

  lemma SendKeeps(s: Socket, sphdr: Bytes, m: Message)
    requires Inv(s) && Enabled(s, UserSend(sphdr, m))
    ensures Step(s, UserSend(sphdr, m)).Abort? <==> Fails(s, UserSend(sphdr, m))
    ensures Step(s, UserSend(sphdr, m)).Ok? ==> Inv(Step(s, UserSend(sphdr, m)).socket)
  {
    T.StopKeeps(s.timer);
    if s.state == Passive { LaunchKeeps(Submit(s, m)); }
  }

  lemma TaskKeeps(s: Socket)
    requires Inv(s) && Enabled(s, WorkerTask)
    ensures Step(s, WorkerTask).Abort? <==> s.deadline < 0 && StartsTimer(s, WorkerTask)
    ensures Step(s, WorkerTask).Ok? ==> Inv(Step(s, WorkerTask).socket)
  {
    T.RunTaskKeeps(s.timer);
    var r := T.RunTask(s.timer);
    if r.event == T.Stopped && s.state == Cancelling { LaunchKeeps(s.(timer := r.timer)); }
  }

  /** Whatever comes next, timer and socket are in step again and no bad_* branch is reached; two assertions
      can fail, exactly in the steps that Fails describes.  Both take a user who does what no call refuses:
      nn_sendmsg accepts an SP header on any socket, and nn_surveyor_setopt a negative deadline. */
  lemma StepKeeps(s: Socket, a: Action)
    requires Inv(s) && Enabled(s, a)
    ensures Step(s, a).Abort? <==> Fails(s, a)
    ensures Step(s, a).Ok? ==> Inv(Step(s, a).socket)
  {
    match a
    case UserSend(h, m) => SendKeeps(s, h, m);
    case WorkerTask => TaskKeeps(s);
    case WorkerTimeout =>
      T.ExpireKeeps(s.timer);
      T.StopKeeps(T.Expire(s.timer).timer);
    case StopSocket => T.StopKeeps(s.timer);
    case _ =>
  }

  predicate Run(ss: seq<Socket>, acts: seq<Action>) {
    && |ss| == |acts| + 1
    && ss[0].surveyid < MAX32 && ss[0] == Start(ss[0].surveyid)
    && forall i :: 0 <= i < |acts| ==> Enabled(ss[i], acts[i]) && Step(ss[i], acts[i]) == Ok(ss[i + 1])
  }

  lemma {:induction false} RunInv(ss: seq<Socket>, acts: seq<Action>, i: nat)
    requires Run(ss, acts) && i < |ss|
    ensures Inv(ss[i])
  {
    if i > 0 {
      RunInv(ss, acts, i - 1);
      StepKeeps(ss[i - 1], acts[i - 1]);
    }
  }

  /** In every run the deadline timer is active exactly in ACTIVE and stopping exactly in CANCELLING,
      STOPPING_TIMER and STOPPING; and the next step fails an assertion exactly when it is a send with an SP
      header of its own, or sends a survey while the deadline that the user set last is negative. */
  lemma InStep(ss: seq<Socket>, acts: seq<Action>, a: Action)
    requires Run(ss, acts)
    ensures var s := ss[|acts|];
            && (s.timer.life == T.Active <==> s.state == Active)
            && (s.timer.life == T.Stopping <==> s.state in {Cancelling, StoppingTimer, Stopping})
            && (Enabled(s, a) ==>
                  (Step(s, a).Abort? <==>
                   (a.UserSend? && a.sphdr != []) || (LastDeadline(acts) < 0 && StartsTimer(s, a))))
  {
    RunInv(ss, acts, |acts|);
    RunDeadline(ss, acts, |acts|);
    assert acts[..|acts|] == acts;
    if Enabled(ss[|acts|], a) { StepKeeps(ss[|acts|], a); }
  }

  /** The deadline that the user set last. */
  function LastDeadline(acts: seq<Action>): int {
    if acts == [] then 1000
    else if acts[|acts| - 1].SetDeadline? then acts[|acts| - 1].ms
    else LastDeadline(acts[..|acts| - 1])
  }

  /** What a step does to the deadline and to the id. */
  lemma StepFields(s: Socket, a: Action)
    requires Enabled(s, a) && Step(s, a).Ok?
    ensures Step(s, a).socket.deadline == if a.SetDeadline? then a.ms else s.deadline
    ensures Step(s, a).socket.surveyid == if a.UserSend? then NextId(s.surveyid) else s.surveyid
  {
    match a
    case UserSend(_, m) =>
      var s1 := Submit(s, m);
      FeedFields(s1, if InProgress(s1) then ActCancel else ActStart);
    case WorkerTask => TimerFields(s, T.RunTask(s.timer));
    case WorkerTimeout => TimerFields(s, T.Expire(s.timer));
    case _ =>
  }

  lemma FeedFields(s: Socket, i: Input)
    requires Feed(s, i).Ok?
    ensures Feed(s, i).socket.deadline == s.deadline && Feed(s, i).socket.surveyid == s.surveyid
  {
  }

  lemma TimerFields(s: Socket, r: T.Result)
    requires FromTimer(s, r).Ok?
    ensures FromTimer(s, r).socket.deadline == s.deadline && FromTimer(s, r).socket.surveyid == s.surveyid
  {
    var s1 := s.(timer := r.timer);
    if r.event == T.Timeout { FeedFields(s1, TimerTimeout); }
    if r.event == T.Stopped { FeedFields(s1, TimerStopped); }
  }

  lemma {:induction false} RunDeadline(ss: seq<Socket>, acts: seq<Action>, i: nat)
    requires Run(ss, acts) && i < |ss|
    ensures ss[i].deadline == LastDeadline(acts[..i])
  {
    if i > 0 {
      RunDeadline(ss, acts, i - 1);
      assert Step(ss[i - 1], acts[i - 1]) == Ok(ss[i]);
      StepFields(ss[i - 1], acts[i - 1]);
      assert acts[..i][..i - 1] == acts[..i - 1];
    }
  }

  /** While a survey is out, a response is current exactly when it starts with the four bytes that the survey
      on the wire carries. */
  lemma CurrentExactly(s: Socket, wire: Bytes)
    requires Inv(s) && s.state == Active
    ensures Current(s, wire) <==> Put32(s.wire[|s.wire| - 1].0) <= wire
  {
    var header := Put32(s.surveyid);
    Get32Put32(s.surveyid);
    if |wire| >= 4 {
      Put32Get32(wire[..4]);
      if header <= wire { assert wire[..4] == header; }
    }
  }

  function Iterate(id: nat, n: nat): nat { if n == 0 then id else NextId(Iterate(id, n - 1)) }

  lemma NextIs(id: nat)
    requires TOP_BIT <= id < MAX32
    ensures NextId(id) == if id + 1 < MAX32 then id + 1 else TOP_BIT
  {
  }

  lemma {:induction false} IterateIs(id: nat, n: nat)
    requires n < TOP_BIT && TOP_BIT <= id < MAX32
    ensures Iterate(id, n) == if id + n < MAX32 then id + n else id + n - TOP_BIT
  {
    if n > 0 {
      IterateIs(id, n - 1);
      NextIs(Iterate(id, n - 1));
    }
  }

  /** How many surveys the user sends from one state of a run to another. */
  function Surveys(acts: seq<Action>, i: nat, j: nat): nat
    requires i <= j <= |acts|
    decreases j
  {
    if i == j then 0 else Surveys(acts, i, j - 1) + if acts[j - 1].UserSend? then 1 else 0
  }

  lemma {:induction false} RunId(ss: seq<Socket>, acts: seq<Action>, i: nat, j: nat)
    requires Run(ss, acts) && i <= j < |ss|
    ensures ss[j].surveyid == Iterate(ss[i].surveyid, Surveys(acts, i, j))
    decreases j
  {
    if i < j {
      RunId(ss, acts, i, j - 1);
      assert Step(ss[j - 1], acts[j - 1]) == Ok(ss[j]);
      StepFields(ss[j - 1], acts[j - 1]);
    }
  }

  /** A response to a survey that was out is current later on exactly as long as no other survey has been
      sent: until 2^31 surveys later, when the ids come round. */
  lemma StaleResponse(ss: seq<Socket>, acts: seq<Action>, i: nat, j: nat, wire: Bytes)
    requires Run(ss, acts) && i <= j < |ss| && ss[i].state == Active && Current(ss[i], wire)
    requires Surveys(acts, i, j) < TOP_BIT
    ensures Current(ss[j], wire) <==> Surveys(acts, i, j) == 0
  {
    RunInv(ss, acts, i);
    RunId(ss, acts, i, j);
    IterateIs(ss[i].surveyid, Surveys(acts, i, j));
  }

  // ---------------------------------------------------------------- the code in place

  class SurveyorSocket {
    var life: T.Life
    var state: State
    var surveyid: nat
    var tosend: Message
    var deadline: int
    var timedout: bool
    const timer: H.Timer
    ghost var wire: seq<(nat, Message)>

    constructor (id: nat)
      ensures Value() == Start(id) && fresh(timer)
    {
      life, state, surveyid, tosend, deadline, timedout, wire := T.Active, Passive, id, [], 1000, false, [];
      timer := new H.Timer();
    }

    ghost function Value(): Socket
      reads this, timer
    {
      Socket(life, state, surveyid, tosend, deadline, timedout, timer.Value(), wire)
    }

    method Relaunch()
      requires Launch(Value()).Ok?
      modifies this, timer
      ensures Ok(Value()) == Launch(old(Value()))
    {
      wire := wire + [(surveyid, tosend)];
      timer.Start(deadline);
      state := Active;
    }

    /** nn_surveyor_handler. */
    method HandleInput(i: Input)
      requires Handle(Value(), i).Ok?
      modifies this, timer
      ensures Ok(Value()) == Handle(old(Value()), i)
    {
      match state {
        case Passive => Relaunch();
        case Active =>
          timer.Stop();
          if i == ActCancel {
            state := Cancelling;
          } else {
            state := StoppingTimer;
            timedout := true;
          }
        case Cancelling =>
          if i == TimerStopped { Relaunch(); }
        case StoppingTimer =>
          state := if i == ActCancel then Cancelling else Passive;
      }
    }

    /** nn_surveyor_shutdown. */
    method ShutdownSocket(stop: bool)
      requires Shutdown(Value(), stop).Ok?
      modifies this, timer
      ensures Ok(Value()) == Shutdown(old(Value()), stop)
    {
      if stop {
        timer.Stop();
        state := Stopping;
      }
      assert state == Stopping;
      if timer.life != T.Idle {
        return;
      }
      state := Idle;
      life := T.Idle;
    }

    method FeedInput(i: Input)
      requires Feed(Value(), i).Ok?
      modifies this, timer
      ensures Ok(Value()) == Feed(old(Value()), i)
    {
      if life != T.Stopping {
        HandleInput(i);
      } else {
        ShutdownSocket(false);
      }
    }

    /** nn_surveyor_send. */
    method SendSurvey(sphdr: Bytes, m: Message)
      requires Send(Value(), sphdr, m).Ok?
      modifies this, timer
      ensures Ok(Value()) == Send(old(Value()), sphdr, m)
    {
      surveyid := (surveyid + 1) % MAX32;
      surveyid := if surveyid >= TOP_BIT then surveyid else surveyid + TOP_BIT;
      assert sphdr == [];
      tosend := m;
      if state != Idle && state != Passive && state != Stopping {
        FeedInput(ActCancel);
        return;
      }
      FeedInput(ActStart);
    }

    /** nn_surveyor_recv over the messages that wait in the fair queue: the first one that carries the id of
        the current survey, -EAGAIN at one that is too short, and nothing while no survey is in progress.
        `used` is the number of messages taken. */
    method RecvResponse(ws: seq<Bytes>) returns (r: Received, used: nat)
      modifies `timedout
      ensures !InProgress(old(Value())) ==> r == (if old(timedout) then Etimedout else Efsm) && !timedout && used == 0
      ensures InProgress(old(Value())) ==>
                var k := RecvEnd(old(Value()), ws);
                && timedout == old(timedout)
                && r == (if k < |ws| && |ws[k]| >= 4 then Got(ws[k][4..]) else Eagain)
                && used == if k < |ws| then k + 1 else |ws|
    {
      used := 0;
      if state == Idle || state == Passive || state == Stopping {
        if timedout {
          timedout := false;
          return Etimedout, 0;
        }
        return Efsm, 0;
      }
      while used < |ws|
        invariant used <= |ws| && forall j :: 0 <= j < used ==> |ws[j]| >= 4 && !Current(Value(), ws[j])
      {
        var wire := ws[used];
        used := used + 1;
        if |wire| < 4 {
          return Eagain, used;
        }
        if Get32(wire[..4]) != surveyid {
          continue;
        }
        return Got(wire[4..]), used;
      }
      return Eagain, used;
    }
  }
}
