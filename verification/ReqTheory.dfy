/** REQ and its resend timer stay in step over every run, and replies are matched to requests. */
module ReqTheory {
  import opened Wire
  import opened Req
  import T = TimerModel

  /** The state of the timer that goes with a state of the socket. */
  function TimerFor(state: State): T.Life {
    match state
    case Active => T.Active
    case TimedOut | Cancelling | StoppingTimer | Stopping => T.Stopping
    case _ => T.Idle
  }

  predicate LifeOk(s: Socket) {
    match s.life
    case Active => s.state != Idle && s.state != Stopping
    case Stopping => s.state == Stopping && s.pipes == {}
    case Idle => s.state == Idle && s.pipes == {}
  }

  predicate Inv(s: Socket) {
    && T.Inv(s.timer) && s.timer.life == TimerFor(s.state)
    && LifeOk(s)
    && (s.state == Active <==> s.sentTo != {})
    && |s.sentTo| <= 1 && s.sentTo <= s.pipes && s.ready <= s.pipes
    && (s.state == Delayed ==> s.ready == {})
    && s.id < MAX32
    && (InProgress(s) ==> s.submitted != [] && s.request == s.submitted[|s.submitted| - 1])
    && (s.state == Active ==>
          s.wire != [] && s.wire[|s.wire| - 1].0 in s.sentTo
          && s.wire[|s.wire| - 1].1 == Key(s.id) && s.wire[|s.wire| - 1].2 == s.request)
  }

  lemma StartInv(id: nat)
    requires id < MAX32
    ensures Inv(Start(id))
  {
  }

  /** Everything about a socket that is about to send, except its state. */
  predicate AboutToSend(s: Socket) {
    && T.Inv(s.timer) && s.timer.life == T.Idle && s.life == T.Active
    && s.sentTo == {} && s.ready <= s.pipes && s.id < MAX32
    && s.submitted != [] && s.request == s.submitted[|s.submitted| - 1]
  }

  lemma ActionSendKeeps(s: Socket, allowDelay: bool, c: Choice)
    requires AboutToSend(s) && Fair(s, c) && (allowDelay || s.ready != {})
    ensures ActionSend(s, allowDelay, c).Abort? <==> s.ready != {} && s.resendIvl < 0
    ensures ActionSend(s, allowDelay, c).Ok? ==> Inv(ActionSend(s, allowDelay, c).socket)
  {
    T.StartKeeps(s.timer, s.resendIvl);
  }

  lemma StopTimerKeeps(s: Socket, next: State)
    requires T.Inv(s.timer) && s.timer.life == T.Active
    ensures StopTimer(s, next).Ok?
    ensures StopTimer(s, next).socket == s.(timer := StopTimer(s, next).socket.timer, sentTo := {}, state := next)
    ensures T.Inv(StopTimer(s, next).socket.timer) && StopTimer(s, next).socket.timer.life == T.Stopping
  {
    T.StopKeeps(s.timer);
  }

  /** The steps in which the machine sends a request, and so starts the timer. */
  predicate StartsTimer(s: Socket, a: Action) {
    match a
    case UserSend(_, _) => (s.state == Passive || s.state == Done) && s.ready != {}
    case PipeOut(_) => s.state == Delayed
    case WorkerTask =>
      (s.state == TimedOut || s.state == Cancelling) && s.ready != {}
      && s.timer.tasks != [] && s.timer.tasks[0] == T.StopTask
    case _ => false
  }

  /** The steps that fail an assertion: a request that has an SP header of its own (line 240), and a start of
      the timer with a negative interval (timer.c:79). */
  predicate Fails(s: Socket, a: Action) {
    (a.UserSend? && a.sphdr != []) || (s.resendIvl < 0 && StartsTimer(s, a))
  }

  lemma SendKeeps(s: Socket, sphdr: Bytes, m: Message, c: Choice)
    requires Inv(s) && Enabled(s, UserSend(sphdr, m), c)
    ensures Send(s, sphdr, m, c).Abort? <==> Fails(s, UserSend(sphdr, m))
    ensures Send(s, sphdr, m, c).Ok? ==> Inv(Send(s, sphdr, m, c).socket)
  {
    var s1 := Submit(s, m);
    match s.state
    case Passive => ActionSendKeeps(s1, true, c);
    case Done => ActionSendKeeps(s1, true, c);
    case Active => StopTimerKeeps(s1, Cancelling);
    case _ =>
  }

  lemma {:induction false} InKeeps(s: Socket, ws: seq<Bytes>, c: Choice)
    requires Inv(s) && s.life == T.Active
    ensures In(s, ws, c).Ok? && Inv(In(s, ws, c).socket)
    decreases |ws|
  {
    if ws != [] && |ws[0]| >= 4 {
      var m := B.XreqRecv(ws[0]).msg;
      if !Answers(s, m) {
        InKeeps(s.(reply := Dead), ws[1..], c);
      } else if s.state == Active {
        StopTimerKeeps(s.(reply := Whole(m.body)), StoppingTimer);
      }
    }
  }

  lemma PipeAddKeeps(s: Socket, p: Pipe, c: Choice)
    requires Inv(s) && Enabled(s, PipeAdd(p), c)
    ensures Step(s, PipeAdd(p), c).Ok? && Inv(Step(s, PipeAdd(p), c).socket)
  {
  }

  lemma PipeOutKeeps(s: Socket, p: Pipe, c: Choice)
    requires Inv(s) && Enabled(s, PipeOut(p), c)
    ensures Step(s, PipeOut(p), c).Abort? <==> s.resendIvl < 0 && StartsTimer(s, PipeOut(p))
    ensures Step(s, PipeOut(p), c).Ok? ==> Inv(Step(s, PipeOut(p), c).socket)
  {
    if s.state == Delayed { ActionSendKeeps(s.(ready := s.ready + {p}), false, c); }
  }

  lemma PipeRmKeeps(s: Socket, p: Pipe, c: Choice)
    requires Inv(s) && Enabled(s, PipeRm(p), c)
    ensures Step(s, PipeRm(p), c).Ok? && Inv(Step(s, PipeRm(p), c).socket)
  {
    if p in s.sentTo { PipeLost(s, p, c); }
  }

  /** The pipe that the request went to is gone. */
  lemma PipeLost(s: Socket, p: Pipe, c: Choice)
    requires Inv(s) && p in s.sentTo
    ensures Remove(s, p, c).Ok? && Inv(Remove(s, p, c).socket)
  {
    StopTimerKeeps(s.(pipes := s.pipes - {p}, ready := s.ready - {p}), TimedOut);
  }

  lemma StoppedKeeps(s: Socket, timer: T.Timer, c: Choice)
    requires Inv(s) && T.Inv(timer) && timer.life == T.Idle && s.timer.life == T.Stopping && Fair(s, c)
    ensures var r := Feed(s.(timer := timer), TimerStopped, c);
            && (r.Abort? <==> s.resendIvl < 0 && (s.state == TimedOut || s.state == Cancelling) && s.ready != {})
            && (r.Ok? ==> Inv(r.socket))
  {
    if s.state == TimedOut || s.state == Cancelling {
      ActionSendKeeps(s.(timer := timer), true, c);
    }
  }

  lemma TaskKeeps(s: Socket, c: Choice)
    requires Inv(s) && Enabled(s, WorkerTask, c)
    ensures Step(s, WorkerTask, c).Abort? <==> s.resendIvl < 0 && StartsTimer(s, WorkerTask)
    ensures Step(s, WorkerTask, c).Ok? ==> Inv(Step(s, WorkerTask, c).socket)
  {
    T.RunTaskKeeps(s.timer);
    var r := T.RunTask(s.timer);
    if r.event == T.Stopped { StoppedKeeps(s, r.timer, c); }
  }

  lemma TimeoutKeeps(s: Socket, c: Choice)
    requires Inv(s) && Enabled(s, WorkerTimeout, c)
    ensures Step(s, WorkerTimeout, c).Ok? && Inv(Step(s, WorkerTimeout, c).socket)
  {
    T.ExpireKeeps(s.timer);
    var r := T.Expire(s.timer);
    if r.event == T.Timeout { StopTimerKeeps(s.(timer := r.timer), TimedOut); }
  }

  lemma StopKeeps(s: Socket)
    requires Inv(s) && s.pipes == {}
    ensures Stop(s).Ok? && Inv(Stop(s).socket)
  {
    T.StopKeeps(s.timer);
  }

  /** Whatever comes next, timer and socket are in step again and no bad_action, bad_source or bad_state
      branch is reached; two assertions can fail, exactly in the steps that Fails describes.  Both take a
      user who does what no call refuses: nn_sendmsg accepts an SP header on any socket, and nn_req_setopt a
      negative interval. */
  lemma StepKeeps(s: Socket, a: Action, c: Choice)
    requires Inv(s) && Enabled(s, a, c)
    ensures Step(s, a, c).Abort? <==> Fails(s, a)
    ensures Step(s, a, c).Ok? ==> Inv(Step(s, a, c).socket)
  {
    match a
    case UserSend(h, m) => SendKeeps(s, h, m, c);
    case Arrive(ws) => InKeeps(s, ws, c);
    case PipeAdd(p) => PipeAddKeeps(s, p, c);
    case PipeOut(p) => PipeOutKeeps(s, p, c);
    case PipeRm(p) => PipeRmKeeps(s, p, c);
    case WorkerTask => TaskKeeps(s, c);
    case WorkerTimeout => TimeoutKeeps(s, c);
    case StopSocket => StopKeeps(s);
    case _ =>
  }

  // ---------------------------------------------------------------- runs

  /** ss is a run of a REQ socket. */
  predicate Run(ss: seq<Socket>, acts: seq<Action>, cs: seq<Choice>) {
    && |ss| == |acts| + 1 == |cs| + 1
    && ss[0].id < MAX32 && ss[0] == Start(ss[0].id)
    && forall i :: 0 <= i < |acts| ==>
         && Enabled(ss[i], acts[i], cs[i])
         && Step(ss[i], acts[i], cs[i]) == Ok(ss[i + 1])
  }

  lemma {:induction false} RunInv(ss: seq<Socket>, acts: seq<Action>, cs: seq<Choice>, i: nat)
    requires Run(ss, acts, cs) && i < |ss|
    ensures Inv(ss[i])
  {
    if i == 0 {
      StartInv(ss[0].id);
    } else {
      RunInv(ss, acts, cs, i - 1);
      StepKeeps(ss[i - 1], acts[i - 1], cs[i - 1]);
    }
  }

  /** Timer and socket in step: the timer is active exactly in ACTIVE, stopping exactly in TIMED_OUT,
      CANCELLING, STOPPING_TIMER and STOPPING, idle otherwise; sent_to is set exactly in ACTIVE. */
  lemma InStep(ss: seq<Socket>, acts: seq<Action>, cs: seq<Choice>, i: nat)
    requires Run(ss, acts, cs) && i < |ss|
    ensures var s := ss[i];
            && (s.timer.life == T.Active <==> s.state == Active)
            && (s.timer.life == T.Stopping <==> s.state in {TimedOut, Cancelling, StoppingTimer, Stopping})
            && (s.sentTo != {} <==> s.state == Active)
  {
    RunInv(ss, acts, cs, i);
  }

  /** The resend interval that the user set last. */
  function LastInterval(acts: seq<Action>): int {
    if acts == [] then 60000
    else if acts[|acts| - 1].SetIvl? then acts[|acts| - 1].ivl
    else LastInterval(acts[..|acts| - 1])
  }

  lemma FeedInterval(s: Socket, i: Input, c: Choice)
    requires Feed(s, i, c).Ok?
    ensures Feed(s, i, c).socket.resendIvl == s.resendIvl
  {
  }

  lemma StepInterval(s: Socket, a: Action, c: Choice)
    requires Enabled(s, a, c) && Step(s, a, c).Ok?
    ensures Step(s, a, c).socket.resendIvl == if a.SetIvl? then a.ivl else s.resendIvl
  {
    match a
    case UserSend(_, m) =>
      FeedInterval(Submit(s, m), ActSent, c);
    case Arrive(ws) =>
      InSpec(s, ws, c);
      var k := LoopEnd(s, ws);
      if AnsweredAt(s, ws, k) && s.state == Active { FeedInterval(s.(reply := Whole(ws[k][4..])), ActIn, c); }
    case _ =>
  }

  lemma {:induction false} RunInterval(ss: seq<Socket>, acts: seq<Action>, cs: seq<Choice>, i: nat)
    requires Run(ss, acts, cs) && i < |ss|
    ensures ss[i].resendIvl == LastInterval(acts[..i])
  {
    if i > 0 {
      RunInterval(ss, acts, cs, i - 1);
      assert Step(ss[i - 1], acts[i - 1], cs[i - 1]) == Ok(ss[i]);
      StepInterval(ss[i - 1], acts[i - 1], cs[i - 1]);
      assert acts[..i][..i - 1] == acts[..i - 1];
    }
  }

  /** A run can be ended by a failed assertion in exactly two ways, for every next step: the user sends a
      message with an SP header of its own, or the resend interval that was set last is negative and the step
      sends a request.  No run reaches a bad_action, bad_source or bad_state branch. */
  lemma AbortsExactly(ss: seq<Socket>, acts: seq<Action>, cs: seq<Choice>, a: Action, c: Choice)
    requires Run(ss, acts, cs) && Enabled(ss[|acts|], a, c)
    ensures Step(ss[|acts|], a, c).Abort? <==>
            (a.UserSend? && a.sphdr != []) || (LastInterval(acts) < 0 && StartsTimer(ss[|acts|], a))
  {
    RunInv(ss, acts, cs, |acts|);
    RunInterval(ss, acts, cs, |acts|);
    assert acts[..|acts|] == acts;
    StepKeeps(ss[|acts|], a, c);
  }

  lemma {:induction false} NeverNegative(acts: seq<Action>)
    requires forall k :: 0 <= k < |acts| && acts[k].SetIvl? ==> acts[k].ivl >= 0
    ensures LastInterval(acts) >= 0
  {
    if acts != [] && !acts[|acts| - 1].SetIvl? { NeverNegative(acts[..|acts| - 1]); }
  }

  /** As long as the user sends no SP header of its own and has set no negative interval, no assertion ever
      fails. */
  lemma NeverAborts(ss: seq<Socket>, acts: seq<Action>, cs: seq<Choice>, a: Action, c: Choice)
    requires Run(ss, acts, cs) && Enabled(ss[|acts|], a, c)
    requires forall k :: 0 <= k < |acts| && acts[k].SetIvl? ==> acts[k].ivl >= 0
    requires a.UserSend? ==> a.sphdr == []
    ensures Step(ss[|acts|], a, c).Ok?
  {
    AbortsExactly(ss, acts, cs, a, c);
    NeverNegative(acts);
  }

  // ---------------------------------------------------------------- replies

  /** Where the loop of nn_req_in ends: at the first message that is too short or that answers, |ws| if there
      is none. */
  function LoopEnd(s: Socket, ws: seq<Bytes>): (k: nat)
    ensures k <= |ws|
    ensures k < |ws| ==> |ws[k]| < 4 || Answers(s, B.XreqRecv(ws[k]).msg)
    ensures forall j :: 0 <= j < k ==> |ws[j]| >= 4 && !Answers(s, B.XreqRecv(ws[j]).msg)
    decreases |ws|
  {
    if ws == [] || |ws[0]| < 4 || Answers(s, B.XreqRecv(ws[0]).msg) then 0 else 1 + LoopEnd(s.(reply := Dead), ws[1..])
  }

  /** The loop ends at k because the message there answers. */
  predicate AnsweredAt(s: Socket, ws: seq<Bytes>, k: nat) {
    k < |ws| && |ws[k]| >= 4 && Answers(s, B.XreqRecv(ws[k]).msg)
  }

  lemma {:induction false} InSpec(s: Socket, ws: seq<Bytes>, c: Choice)
    ensures var k := LoopEnd(s, ws);
            In(s, ws, c) ==
            if ws == [] then Ok(s)
            else if !AnsweredAt(s, ws, k) then Ok(s.(reply := Dead))
            else if s.state == Active then Feed(s.(reply := Whole(ws[k][4..])), ActIn, c)
            else Ok(s.(reply := Whole(ws[k][4..])))
    decreases |ws|
  {
    if ws != [] && |ws[0]| >= 4 && !Answers(s, B.XreqRecv(ws[0]).msg) {
      InSpec(s.(reply := Dead), ws[1..], c);
    }
  }

  /** A message answers exactly when it starts with the four bytes that csend put on the request. */
  lemma AnswersExactly(s: Socket, wire: Bytes)
    requires InProgress(s) && s.id < MAX32
    ensures |wire| >= 4 && Answers(s, B.XreqRecv(wire).msg) <==> Put32(Key(s.id)) <= wire
  {
    var header := Put32(Key(s.id));
    Get32Put32(Key(s.id));
    if |wire| >= 4 {
      Put32Get32(wire[..4]);
      if header <= wire { assert wire[..4] == header; }
    }
  }

  /** The first message with this header comes before any that is too short. */
  predicate Reaches(ws: seq<Bytes>, k: nat, header: Bytes) {
    k < |ws| && header <= ws[k] && forall j :: 0 <= j < k ==> |ws[j]| >= 4 && !(header <= ws[j])
  }

  /** And it has this body. */
  ghost predicate Brings(ws: seq<Bytes>, header: Bytes, b: Message) {
    exists k: nat :: Reaches(ws, k, header) && ws[k] == header + b
  }

  lemma EndReaches(s: Socket, ws: seq<Bytes>)
    requires InProgress(s) && s.id < MAX32
    ensures var k := LoopEnd(s, ws); AnsweredAt(s, ws, k) <==> Reaches(ws, k, Put32(Key(s.id)))
    ensures forall k: nat :: Reaches(ws, k, Put32(Key(s.id))) ==> k == LoopEnd(s, ws)
  {
    forall j | 0 <= j < |ws| { AnswersExactly(s, ws[j]); }
  }

  /** REQ leaves ACTIVE for STOPPING_TIMER exactly when messages arrive of which one starts with the id of the
      latest request, with none too short before it; the first such is then the stored one. */
  lemma ReplyMatchesRequest(s: Socket, a: Action, c: Choice)
    requires Inv(s) && s.state == Active && Enabled(s, a, c) && !Fails(s, a)
    ensures Step(s, a, c).Ok?
    ensures Step(s, a, c).socket.state == StoppingTimer <==>
            a.Arrive? && exists k: nat :: Reaches(a.wires, k, Put32(Key(s.id)))
    ensures Step(s, a, c).socket.state == StoppingTimer ==>
            var k := LoopEnd(s, a.wires);
            && Reaches(a.wires, k, Put32(Key(s.id)))
            && Step(s, a, c).socket.reply == Whole(a.wires[k][4..])
  {
    StepKeeps(s, a, c);
    if a.Arrive? {
      InSpec(s, a.wires, c);
      EndReaches(s, a.wires);
      StopTimerKeeps(s.(reply := Step(s, a, c).socket.reply), StoppingTimer);
    } else {
      NotByOthers(s, a, c);
    }
  }

  lemma NotByOthers(s: Socket, a: Action, c: Choice)
    requires Inv(s) && s.state == Active && Enabled(s, a, c) && !a.Arrive? && !Fails(s, a)
    ensures Step(s, a, c).Ok? && Step(s, a, c).socket.state != StoppingTimer
  {
    StepKeeps(s, a, c);
    T.StopKeeps(s.timer);
  }

  /** Between the end of ACTIVE and the user's receive. */
  predicate Holds(s: Socket) { s.state == StoppingTimer || s.state == Done }

  /** There, an arrival overwrites the stored reply (line 155): the reply that crecv will return survives
      exactly when nothing arrives, or the loop ends at a message that answers and has the same body. */
  lemma StoredReplySurvives(s: Socket, ws: seq<Bytes>, b: Message, c: Choice)
    requires Inv(s) && Holds(s) && s.reply == Whole(b)
    ensures In(s, ws, c).Ok?
    ensures In(s, ws, c).socket.reply == Whole(b) <==>
            ws == [] || Brings(ws, Put32(Key(s.id)), b)
  {
    InSpec(s, ws, c);
    InStores(s, ws, c);
    if ws != [] { StoresExactly(s.reply, ws, Put32(Key(s.id)), b); }
  }

  /** One message that does not carry the id is enough to destroy it, be it stale or too short. */
  lemma StoredReplyLost(s: Socket, wire: Bytes, b: Message, c: Choice)
    requires Inv(s) && Holds(s) && s.reply == Whole(b) && !(Put32(Key(s.id)) <= wire)
    ensures In(s, [wire], c).Ok? && In(s, [wire], c).socket.reply == Dead
  {
    InSpec(s, [wire], c);
    AnswersExactly(s, wire);
    assert LoopEnd(s, [wire]) == 0 || LoopEnd(s, [wire]) == 1;
  }

  /** Nothing but an arrival, a receive or a new request touches a stored reply. */
  lemma StoredReplyKept(s: Socket, a: Action, c: Choice)
    requires Inv(s) && Enabled(s, a, c) && Holds(s)
    requires !a.Arrive? && !a.UserRecv? && !a.UserSend? && !a.StopSocket?
    ensures Step(s, a, c).Ok? && Step(s, a, c).socket.reply == s.reply && Holds(Step(s, a, c).socket)
  {
    StepKeeps(s, a, c);
  }

  /** What arrivals leave in task.reply: nothing new, the body of the first message with this header, or a
      dead message. */
  function Stores(reply: Stored, ws: seq<Bytes>, header: Bytes): Stored
    requires |header| == 4
    decreases |ws|
  {
    if ws == [] then reply
    else if |ws[0]| < 4 then Dead
    else if header <= ws[0] then Whole(ws[0][4..])
    else Stores(Dead, ws[1..], header)
  }

  lemma {:induction false} InStores(s: Socket, ws: seq<Bytes>, c: Choice)
    requires InProgress(s) && s.id < MAX32 && In(s, ws, c).Ok?
    ensures In(s, ws, c).socket.reply == Stores(s.reply, ws, Put32(Key(s.id)))
    decreases |ws|
  {
    if ws != [] {
      AnswersExactly(s, ws[0]);
      if |ws[0]| >= 4 && !Answers(s, B.XreqRecv(ws[0]).msg) { InStores(s.(reply := Dead), ws[1..], c); }
    }
  }

  /** How a step can end with a stored reply: ACTIVE is left by an arrival; and what was stored stays, or
      an arrival replaces it.  The request is the same. */
  lemma HeldFrom(s: Socket, a: Action, c: Choice)
    requires Inv(s) && Enabled(s, a, c) && Step(s, a, c).Ok? && Holds(Step(s, a, c).socket)
    ensures var s' := Step(s, a, c).socket;
            && !a.UserSend? && s'.id == s.id && (s.state == Active || Holds(s)) && (s.state == Active ==> a.Arrive?)
            && s'.reply == if a.Arrive? then Stores(s.reply, a.wires, Put32(Key(s.id))) else s.reply
  {
    match a
    case Arrive(ws) => ArrivalHeld(s, ws, c);
    case UserSend(h, m) => SendHeld(s, h, m, c);
    case PipeOut(p) => OutHeld(s, p, c);
    case PipeRm(p) => RemoveHeld(s, p, c);
    case WorkerTask => TaskHeld(s, T.RunTask(s.timer), c);
    case WorkerTimeout => TaskHeld(s, T.Expire(s.timer), c);
    case _ =>
  }

  lemma SendHeld(s: Socket, sphdr: Bytes, m: Message, c: Choice)
    requires Send(s, sphdr, m, c).Ok?
    ensures !Holds(Send(s, sphdr, m, c).socket)
  {
  }

  lemma OutHeld(s: Socket, p: Pipe, c: Choice)
    requires Out(s, p, c).Ok? && Holds(Out(s, p, c).socket)
    ensures Out(s, p, c).socket == s.(ready := s.ready + {p})
  {
  }

  lemma RemoveHeld(s: Socket, p: Pipe, c: Choice)
    requires Remove(s, p, c).Ok? && Holds(Remove(s, p, c).socket) && (p in s.sentTo ==> s.state == Active)
    ensures Remove(s, p, c).socket == s.(pipes := s.pipes - {p}, ready := s.ready - {p})
  {
  }

  lemma ArrivalHeld(s: Socket, ws: seq<Bytes>, c: Choice)
    requires Inv(s) && s.life == T.Active && In(s, ws, c).Ok? && Holds(In(s, ws, c).socket)
    ensures var s' := In(s, ws, c).socket;
            s'.id == s.id && (s.state == Active || Holds(s)) && s'.reply == Stores(s.reply, ws, Put32(Key(s.id)))
  {
    InSpec(s, ws, c);
    if InProgress(s) { InStores(s, ws, c); }
  }

  lemma TaskHeld(s: Socket, r: T.Result, c: Choice)
    requires FromTimer(s, r, c).Ok? && Holds(FromTimer(s, r, c).socket)
    ensures var s' := FromTimer(s, r, c).socket; s'.id == s.id && s'.reply == s.reply && Holds(s)
  {
  }

  /** What the arrivals among the actions from `lo` to `hi` leave in task.reply. */
  function StoresAll(reply: Stored, acts: seq<Action>, lo: nat, hi: nat, header: Bytes): Stored
    requires lo <= hi <= |acts| && |header| == 4
    decreases hi
  {
    if lo == hi then reply
    else
      var r := StoresAll(reply, acts, lo, hi - 1, header);
      if acts[hi - 1].Arrive? then Stores(r, acts[hi - 1].wires, header) else r
  }

  /** The same for the last step of a run. */
  predicate Held(s: Socket, a: Action, s': Socket) {
    && s.id < MAX32 && s'.id == s.id && !a.UserSend? && (s.state == Active || Holds(s))
    && (s.state == Active ==> a.Arrive?)
    && s'.reply == if a.Arrive? then Stores(s.reply, a.wires, Put32(Key(s.id))) else s.reply
  }

  lemma RunHeld(ss: seq<Socket>, acts: seq<Action>, cs: seq<Choice>, i: nat)
    requires Run(ss, acts, cs) && i < |acts| && Holds(ss[i + 1])
    ensures Held(ss[i], acts[i], ss[i + 1])
  {
    RunInv(ss, acts, cs, i);
    assert Step(ss[i], acts[i], cs[i]) == Ok(ss[i + 1]);
    HeldFrom(ss[i], acts[i], cs[i]);
  }

  lemma {:induction false} HeldUntil(ss: seq<Socket>, acts: seq<Action>, i: nat, j: nat)
    requires |ss| == |acts| + 1 && i < j < |ss| && forall k :: i <= k < j ==> Held(ss[k], acts[k], ss[k + 1])
    ensures ss[i].id < MAX32 && ss[j].id == ss[i].id
    ensures ss[j].reply == StoresAll(ss[i + 1].reply, acts, i + 1, j, Put32(Key(ss[i].id)))
    decreases j
  {
    assert Held(ss[j - 1], acts[j - 1], ss[j - 1 + 1]);
    if j > i + 1 { HeldUntil(ss, acts, i, j - 1); }
  }

  /** No arrival replaces the body: the last action that brings messages, if there is one, has this body in
      the first of them that carries the header, and none too short before it. */
  ghost predicate Undisturbed(acts: seq<Action>, lo: nat, hi: nat, header: Bytes, b: Message)
    requires lo <= hi <= |acts|
    decreases hi
  {
    lo == hi
    || if acts[hi - 1].Arrive? && acts[hi - 1].wires != []
       then Brings(acts[hi - 1].wires, header, b)
       else Undisturbed(acts, lo, hi - 1, header, b)
  }

  lemma {:induction false} StoresExactly(reply: Stored, ws: seq<Bytes>, header: Bytes, b: Message)
    requires |header| == 4 && ws != []
    ensures Stores(reply, ws, header) == Whole(b) <==> Brings(ws, header, b)
    decreases |ws|
  {
    if header <= ws[0] {
      assert ws[0] == header + ws[0][4..] && (header + b)[4..] == b;
      assert Reaches(ws, 0, header) && forall k: nat :: Reaches(ws, k, header) ==> k == 0;
    } else if |ws[0]| >= 4 && ws[1..] != [] {
      StoresExactly(Dead, ws[1..], header, b);
      if k: nat :| Reaches(ws[1..], k, header) && ws[1..][k] == header + b {
        assert Reaches(ws, k + 1, header) && ws[k + 1] == header + b;
      }
      if k: nat :| Reaches(ws, k, header) && ws[k] == header + b {
        assert Reaches(ws[1..], k - 1, header) && ws[1..][k - 1] == header + b;
      }
    }
  }

  lemma {:induction false} StoresAllExactly(b: Message, acts: seq<Action>, lo: nat, hi: nat, header: Bytes)
    requires lo <= hi <= |acts| && |header| == 4
    ensures StoresAll(Whole(b), acts, lo, hi, header) == Whole(b) <==> Undisturbed(acts, lo, hi, header, b)
    decreases hi
  {
    if lo < hi {
      StoresAllExactly(b, acts, lo, hi - 1, header);
      if acts[hi - 1].Arrive? && acts[hi - 1].wires != [] {
        StoresExactly(StoresAll(Whole(b), acts, lo, hi - 1, header), acts[hi - 1].wires, header, b);
      }
    }
  }

  lemma LeavesActive(ss: seq<Socket>, acts: seq<Action>, cs: seq<Choice>, i: nat)
    requires Run(ss, acts, cs) && i < |acts| && ss[i].state == Active && Holds(ss[i + 1])
    ensures acts[i].Arrive? && ss[i].id < MAX32
    ensures var k := LoopEnd(ss[i], acts[i].wires);
            Reaches(acts[i].wires, k, Put32(Key(ss[i].id))) && ss[i + 1].reply == Whole(acts[i].wires[k][4..])
  {
    RunInv(ss, acts, cs, i);
    RunHeld(ss, acts, cs, i);
    assert Step(ss[i], acts[i], cs[i]) == Ok(ss[i + 1]);
    StepKeeps(ss[i], acts[i], cs[i]);
    InSpec(ss[i], acts[i].wires, cs[i]);
    ReplyMatchesRequest(ss[i], acts[i], cs[i]);
  }

  /** What crecv hands over: the reply that took the socket out of ACTIVE, the first of its arrival with the
      id of the request, exactly when no later arrival replaces it, until the user receives. */
  lemma HandsOver(ss: seq<Socket>, acts: seq<Action>, cs: seq<Choice>, i: nat, j: nat)
    requires Run(ss, acts, cs) && i < j < |ss| && ss[i].state == Active && forall k :: i < k <= j ==> Holds(ss[k])
    ensures acts[i].Arrive? && ss[i].id < MAX32
    ensures var k := LoopEnd(ss[i], acts[i].wires);
            && Reaches(acts[i].wires, k, Put32(Key(ss[i].id))) && |acts[i].wires[k]| >= 4
            && var body := acts[i].wires[k][4..];
               && ss[i + 1].reply == Whole(body)
               && (ss[j].reply == Whole(body) <==> Undisturbed(acts, i + 1, j, Put32(Key(ss[i].id)), body))
  {
    LeavesActive(ss, acts, cs, i);
    forall k | i <= k < j ensures Held(ss[k], acts[k], ss[k + 1]) { RunHeld(ss, acts, cs, k); }
    HeldUntil(ss, acts, i, j);
    StoresAllExactly(ss[i + 1].reply.body, acts, i + 1, j, Put32(Key(ss[i].id)));
  }

  /** This message was among those an action brought. */
  predicate Brought(a: Action, wire: Bytes) { a.Arrive? && wire in a.wires }

  lemma {:induction false} StoresFrom(reply: Stored, ws: seq<Bytes>, header: Bytes)
    requires |header| == 4
    ensures Stores(reply, ws, header).Whole? ==>
            (ws == [] && Stores(reply, ws, header) == reply) || header + Stores(reply, ws, header).body in ws
    decreases |ws|
  {
    if ws != [] && |ws[0]| >= 4 {
      if header <= ws[0] { assert ws[0] == header + ws[0][4..]; } else { StoresFrom(Dead, ws[1..], header); }
    }
  }

  lemma LastHeld(ss: seq<Socket>, acts: seq<Action>, cs: seq<Choice>, i: int)
    requires Run(ss, acts, cs) && -1 <= i < |acts| && Holds(ss[i + 1])
    ensures i >= 0 && Held(ss[i], acts[i], ss[i + 1]) && (ss[i].state == Active ==> acts[i].wires != [])
  {
    RunHeld(ss, acts, cs, i);
    if ss[i].state == Active { LeavesActive(ss, acts, cs, i); }
  }

  lemma HeldBrought(s: Socket, a: Action, s': Socket)
    requires Held(s, a, s') && a.Arrive? && a.wires != [] && s'.reply.Whole?
    ensures Brought(a, Put32(Key(s'.id)) + s'.reply.body)
  {
    StoresFrom(s.reply, a.wires, Put32(Key(s'.id)));
  }

  /** Correlation: a whole reply that waits for the user, and so every one that crecv hands over, was brought
      by an arrival after the latest request, and carries its id. */
  lemma {:induction false} CarriesLatestId(ss: seq<Socket>, acts: seq<Action>, cs: seq<Choice>, i: nat)
    returns (k: nat)
    requires Run(ss, acts, cs) && i < |ss| && Holds(ss[i]) && ss[i].reply.Whole?
    ensures k < i && ss[i].id < MAX32 && Brought(acts[k], Put32(Key(ss[i].id)) + ss[i].reply.body)
    ensures forall j :: k <= j < i ==> !acts[j].UserSend?
  {
    LastHeld(ss, acts, cs, i - 1);
    if acts[i - 1].Arrive? && acts[i - 1].wires != [] {
      HeldBrought(ss[i - 1], acts[i - 1], ss[i]);
      k := i - 1;
    } else {
      k := CarriesLatestId(ss, acts, cs, i - 1);
    }
  }

  // ---------------------------------------------------------------- requests

  /** The machine transmits at most once per input, and then the stored request. */
  lemma FeedSends(s: Socket, i: Input, c: Choice)
    requires Feed(s, i, c).Ok?
    ensures var s' := Feed(s, i, c).socket;
            && s'.id == s.id && s'.request == s.request && s'.submitted == s.submitted
            && (s'.wire == s.wire || (s.ready != {} && s'.wire == s.wire + [(c.pipe, Key(s.id), s.request)]))
            && (s'.wire != s.wire ==> s'.state == Active)
  {
  }

  /** Every transmission, the first one and every resend, carries the latest request and its id to a
      pipe that was ready. */
  lemma SendsLatest(s: Socket, a: Action, c: Choice)
    requires Inv(s) && Enabled(s, a, c) && Step(s, a, c).Ok?
    ensures var s' := Step(s, a, c).socket;
            || s'.wire == s.wire
            || (s'.submitted != [] && c.pipe in ReadyAt(s, a)
                && s'.wire == s.wire + [(c.pipe, Key(s'.id), s'.submitted[|s'.submitted| - 1])])
  {
    StepKeeps(s, a, c);
    match a
    case UserSend(_, m) => FeedSends(Submit(s, m), ActSent, c);
    case Arrive(ws) =>
      InSpec(s, ws, c);
      var k := LoopEnd(s, ws);
      if AnsweredAt(s, ws, k) && s.state == Active { FeedSends(s.(reply := Whole(ws[k][4..])), ActIn, c); }
    case PipeOut(p) =>
      if s.state == Delayed { FeedSends(s.(ready := s.ready + {p}), ActOut, c); }
    case PipeRm(p) =>
      if p in s.sentTo { FeedSends(s.(pipes := s.pipes - {p}, ready := s.ready - {p}), ActPipeRm, c); }
    case WorkerTask => TimerSends(s, T.RunTask(s.timer), c);
    case WorkerTimeout => TimerSends(s, T.Expire(s.timer), c);
    case _ =>
  }

  lemma TimerSends(s: Socket, r: T.Result, c: Choice)
    requires Inv(s) && FromTimer(s, r, c).Ok? && Inv(FromTimer(s, r, c).socket)
    ensures var s' := FromTimer(s, r, c).socket;
            || s'.wire == s.wire
            || (s'.submitted != [] && s.ready != {}
                && s'.wire == s.wire + [(c.pipe, Key(s'.id), s'.submitted[|s'.submitted| - 1])])
  {
    var s1 := s.(timer := r.timer);
    if r.event == T.Timeout { FeedSends(s1, TimerTimeout, c); }
    if r.event == T.Stopped { FeedSends(s1, TimerStopped, c); }
  }

  /** The pipes that are attached after an action. */
  function PipesAt(s: Socket, a: Action): set<Pipe> {
    match a
    case PipeAdd(p) => s.pipes + {p}
    case PipeRm(p) => s.pipes - {p}
    case _ => s.pipes
  }

  /** A pipe is taken out of the ready ones only by a transmission that leaves it busy. */
  predicate ReadyFrom(ready: set<Pipe>, c: Choice, sent: bool, s': Socket) {
    s'.ready == if sent && !c.stays then ready - {c.pipe} else ready
  }

  lemma FeedReady(s: Socket, i: Input, c: Choice)
    requires Feed(s, i, c).Ok?
    ensures var s' := Feed(s, i, c).socket;
            s'.pipes == s.pipes && ReadyFrom(s.ready, c, s'.wire != s.wire, s')
  {
    FeedSends(s, i, c);
  }

  lemma FromTimerReady(s: Socket, r: T.Result, c: Choice)
    requires FromTimer(s, r, c).Ok?
    ensures var s' := FromTimer(s, r, c).socket;
            s'.pipes == s.pipes && ReadyFrom(s.ready, c, s'.wire != s.wire, s')
  {
    var s1 := s.(timer := r.timer);
    match r.event
    case Nothing =>
    case Timeout => FeedReady(s1, TimerTimeout, c);
    case Stopped => FeedReady(s1, TimerStopped, c);
  }

  lemma InReady(s: Socket, ws: seq<Bytes>, c: Choice)
    requires In(s, ws, c).Ok?
    ensures var s' := In(s, ws, c).socket;
            s'.pipes == s.pipes && ReadyFrom(s.ready, c, s'.wire != s.wire, s')
  {
    InSpec(s, ws, c);
    var k := LoopEnd(s, ws);
    if AnsweredAt(s, ws, k) && s.state == Active { FeedReady(s.(reply := Whole(ws[k][4..])), ActIn, c); }
  }

  /** nn_req_in transmits nothing. */
  lemma InSilent(s: Socket, ws: seq<Bytes>, c: Choice)
    requires Inv(s) && s.life == T.Active
    ensures In(s, ws, c).Ok?
    ensures var s' := In(s, ws, c).socket; s'.pipes == s.pipes && s'.ready == s.ready && s'.wire == s.wire
  {
    InKeeps(s, ws, c);
    InSpec(s, ws, c);
  }

  /** The pipes that are attached and ready after a step: those at which the load balancer chose, without the
      one that it chose, if it was made busy. */
  lemma StepReady(s: Socket, a: Action, c: Choice)
    requires Enabled(s, a, c) && Step(s, a, c).Ok?
    ensures var s' := Step(s, a, c).socket;
            s'.pipes == PipesAt(s, a) && ReadyFrom(ReadyAt(s, a), c, s'.wire != s.wire, s')
  {
    match a
    case UserSend(_, m) => FeedReady(Submit(s, m), ActSent, c);
    case UserRecv => if s.state == Done { FeedReady(s.(reply := Blank), ActReceived, c); }
    case Arrive(ws) => InReady(s, ws, c);
    case PipeOut(p) => if s.state == Delayed { FeedReady(s.(ready := s.ready + {p}), ActOut, c); }
    case PipeRm(p) =>
      if p in s.sentTo { FeedReady(s.(pipes := s.pipes - {p}, ready := s.ready - {p}), ActPipeRm, c); }
    case WorkerTask => FromTimerReady(s, T.RunTask(s.timer), c);
    case WorkerTimeout => FromTimerReady(s, T.Expire(s.timer), c);
    case _ =>
  }

  /** A request waits in DELAYED only while no pipe is ready. */
  lemma DelayedOnlyWithoutPipes(ss: seq<Socket>, acts: seq<Action>, cs: seq<Choice>, i: nat)
    requires Run(ss, acts, cs) && i < |ss| && ss[i].state == Delayed
    ensures ss[i].ready == {}
  {
    RunInv(ss, acts, cs, i);
  }

  /** crecv returns a message. */
  predicate Receives(s: Socket, a: Action) { a.UserRecv? && s.state == Done }

  /** Only a send takes the machine out of PASSIVE, other than the end of the socket. */
  lemma PassiveStays(s: Socket, a: Action, c: Choice)
    requires Inv(s) && Enabled(s, a, c) && !InProgress(s) && !a.UserSend?
    ensures Step(s, a, c).Ok? && !InProgress(Step(s, a, c).socket)
  {
    StepKeeps(s, a, c);
    if a.Arrive? { InSpec(s, a.wires, c); }
  }

  lemma {:induction false} PassiveUntil(ss: seq<Socket>, acts: seq<Action>, cs: seq<Choice>, i: nat, j: nat)
    requires Run(ss, acts, cs) && i <= j < |ss| && !InProgress(ss[i])
    requires forall k :: i <= k < j ==> !acts[k].UserSend?
    ensures !InProgress(ss[j])
  {
    if i < j {
      PassiveUntil(ss, acts, cs, i, j - 1);
      RunInv(ss, acts, cs, j - 1);
      PassiveStays(ss[j - 1], acts[j - 1], cs[j - 1]);
    }
  }

  /** Between two successful receives there is at least one send. */
  lemma SendBetweenReceives(ss: seq<Socket>, acts: seq<Action>, cs: seq<Choice>, i: nat, j: nat)
    requires Run(ss, acts, cs) && i < j < |acts| && Receives(ss[i], acts[i]) && Receives(ss[j], acts[j])
    ensures exists k :: i < k < j && acts[k].UserSend?
  {
    RunInv(ss, acts, cs, i);
    if forall k :: i < k < j ==> !acts[k].UserSend? {
      PassiveUntil(ss, acts, cs, i + 1, j);
    }
  }
}
