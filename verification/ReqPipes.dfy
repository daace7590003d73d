/** The REQ socket over the inproc pipes below it: the machine of Req driven by what the sessions of XreqPipes
    raise, and sending through their load balancer.  One step is one critical section of the socket, or one
    of a peer. */
module ReqPipes {
  import opened Wire
  import opened Options
  import B = Backtrace
  import I = Inproc
  import T = InprocTheory
  import X = XreqPipes
  import R = Req
  import RT = ReqTheory

  type Pipe = nat

  datatype Socket = Socket(pipes: X.Socket, req: R.Socket)

  /** Abort: an assertion fails, or REQ is given what it does not expect: NN_PIPE_OUT of a pipe that is ready
      already, say.  Spins: the loop of nn_req_in goes on for longer than it is followed. */
  datatype Result = Abort | Spins | Ok(socket: Socket)

  const NOBODY: Pipe := 0

  /** The load balancer's next pipe.  An inproc pipe never stays ready: nn_sinproc_send reports NN_PIPEBASE_SENT
      when the peer has answered, not before. */
  function Chosen(x: X.Socket): R.Choice {
    R.Choice(if X.Head(x.lb).Some? then X.Head(x.lb).value else NOBODY, false)
  }

  /** What nn_xreq_send hands to the pipe when REQ transmits: the header and the body. */
  function OnWire(entry: (Pipe, nat, Bytes)): Bytes
    requires entry.1 < MAX32
  {
    Put32(entry.1) + entry.2
  }

  /** A transmission that REQ has recorded goes out. */
  function Flush(x: X.Socket, before: R.Socket, after: R.Socket): Result {
    if after.wire == before.wire then Ok(Socket(x, after))
    else if after.wire == [] || after.wire[|after.wire| - 1].1 >= MAX32 then Abort
    else
      match X.Perform(x, X.Transmit(OnWire(after.wire[|after.wire| - 1])))
      case Next(x') => Ok(Socket(x', after))
      case _ => Abort
  }

  /** A call or an event at the machine of REQ. */
  function Do(s: Socket, a: R.Action): Result {
    if !R.Enabled(s.req, a, Chosen(s.pipes)) then Abort
    else
      match R.Step(s.req, a, Chosen(s.pipes))
      case Abort => Abort
      case Ok(r) => Flush(s.pipes, s.req, r)
  }

  /** The message that nn_fq_recv takes. */
  function First(x: X.Socket): Bytes {
    var h := X.Head(x.fq);
    if h.Some? && h.value in x.conns && x.conns[h.value].own.queue != [] then x.conns[h.value].own.queue[0] else []
  }

  /** The loop of nn_req_in goes on: the message is long enough and does not answer. */
  predicate GoesOn(r: R.Socket, wire: Bytes) { |wire| >= 4 && !R.Answers(r, B.XreqRecv(wire).msg) }

  /** The loop of nn_req_in, followed for some turns. */
  function In(s: Socket, turns: nat): Result
    decreases turns
  {
    match X.Perform(s.pipes, X.Receive)
    case Failed => Abort
    case Again => Ok(s)
    case Next(x) =>
      if turns == 0 then Spins
      else
        var wire := First(s.pipes);
        match R.In(s.req, [wire], Chosen(s.pipes))
        case Abort => Abort
        case Ok(r) => if GoesOn(s.req, wire) then In(Socket(x, r), turns - 1) else Ok(Socket(x, r))
  }

  /** The events a session raises reach REQ before the critical section ends. */
  function Signal(s: Socket, p: Pipe, before: I.Session, after: I.Session, turns: nat): Result {
    var s1 := if X.RaisesIn(before, after) then In(s, turns) else Ok(s);
    var s2 := if s1.Ok? && X.RaisesOut(before, after) then Do(s1.socket, R.PipeOut(p)) else s1;
    if s2.Ok? && X.Leaves(before, after) then Do(s2.socket, R.PipeRm(p)) else s2
  }

  // ---------------------------------------------------------------- steps

  /** Attach, Own and Peer as in XreqPipes; Call: the user's calls, the worker's tasks and the end of the
      socket. */
  datatype Step =
    | Attach(p: Pipe, own: I.Owner, maxmem: nat, other: I.Owner, othermem: nat, sndprio: int, rcvprio: int)
    | Own(p: Pipe, action: I.Action)
    | Peer(p: Pipe, action: I.Action)
    | Call(call: R.Action)

  function Below(t: Step): X.Step
    requires !t.Call?
  {
    match t
    case Attach(p, own, mem, other, othermem, snd, rcv) => X.Attach(p, own, mem, other, othermem, snd, rcv)
    case Own(p, a) => X.Own(p, a)
    case Peer(p, a) => X.Peer(p, a)
  }

  /** REQ is not asked here whether it expects an event of a pipe. */
  predicate Enabled(s: Socket, t: Step) {
    match t
    case Call(a) =>
      !a.Arrive? && !a.PipeAdd? && !a.PipeOut? && !a.PipeRm? && R.Enabled(s.req, a, Chosen(s.pipes))
    case _ => X.Enabled(s.pipes, Below(t)) && (t.Attach? ==> s.req.life == R.T.Active)
  }

  function AttachPipe(s: Socket, t: Step): Result
    requires t.Attach? && Enabled(s, t)
  {
    var s1 := Do(s, R.PipeAdd(t.p));
    if !s1.Ok? || s1.socket.pipes != s.pipes then Abort
    else
      match X.Perform(s.pipes, Below(t))
      case Next(x) => Do(Socket(x, s1.socket.req), R.PipeOut(t.p))
      case _ => Abort
  }

  function Perform(s: Socket, t: Step, turns: nat): Result
    requires Enabled(s, t)
  {
    match t
    case Call(a) => Do(s, a)
    case Attach(_, _, _, _, _, _, _) => AttachPipe(s, t)
    case _ =>
      match X.Perform(s.pipes, Below(t))
      case Next(x) =>
        if t.p in x.conns then
          Signal(Socket(x, s.req), t.p, s.pipes.conns[t.p].own, x.conns[t.p].own, turns)
        else Abort
      case _ => Abort
  }

  // ---------------------------------------------------------------- the invariant

  function Attached(x: X.Socket): set<Pipe> { set p | p in x.conns && x.conns[p].own.attached }

  /** REQ and the pipes agree, whatever waits at them. */
  ghost predicate Agree(x: X.Socket, pipes: set<Pipe>, ready: set<Pipe>) {
    (X.Inv(x) && pipes == Attached(x) && ready == X.Writable(x)) == true
  }

  /** Between two critical sections no message waits at an attached pipe. */
  ghost predicate Inv(s: Socket) {
    (Agree(s.pipes, s.req.pipes, s.req.ready) && RT.Inv(s.req) && X.Readable(s.pipes) == {}) == true
  }

  // ---------------------------------------------------------------- sending

  predicate Offers(x: X.Socket) { X.Writable(x) != {} ==> Chosen(x).pipe in X.Writable(x) }

  lemma ChosenReady(x: X.Socket)
    requires X.Inv(x)
    ensures (X.Writable(x) != {} <==> X.Head(x.lb).Some?) && Offers(x)
  {
    X.HeadIsBest(x.lb, X.SndPrio(x), X.Writable(x));
  }

  /** One pipe, which could take one, has been handed a message. */
  predicate Handed(x: X.Socket, x': X.Socket, p: Pipe, m: Bytes) {
    (&& X.Only(x, x', p)
     && var own, own' := x.conns[p].own, x'.conns[p].own;
        && own'.handed == own.handed + [m] && own'.taken == own.taken
        && own.attached && own'.attached && X.CanRead(own') == X.CanRead(own) && !X.CanWrite(own')) == true
  }

  lemma SentHands(x: X.Socket, p: Pipe, m: Bytes)
    requires p in x.conns && X.ConnOk(x.conns[p]) && X.CanWrite(x.conns[p].own) && X.SendTo(x, p, m).Next?
    ensures Handed(x, X.SendTo(x, p, m).socket, p, m)
  {
    X.SendReports(x.conns[p].own, x.conns[p].peer, m);
  }

  /** nn_xreq_send. */
  lemma TransmitHands(x: X.Socket, m: Bytes) returns (x': X.Socket)
    requires X.Inv(x) && X.Writable(x) != {}
    ensures X.Perform(x, X.Transmit(m)) == X.Next(x') && X.Inv(x')
    ensures Handed(x, x', Chosen(x).pipe, m)
  {
    ChosenReady(x);
    var p := Chosen(x).pipe;
    X.SendToKeeps(x, p, m);
    SentHands(x, p, m);
    x' := X.SendTo(x, p, m).socket;
  }

  /** What the sets show when one pipe has changed. */
  lemma OnlyAttached(x: X.Socket, x': X.Socket, p: Pipe)
    requires X.Only(x, x', p)
    ensures Attached(x') == if x'.conns[p].own.attached then Attached(x) + {p} else Attached(x) - {p}
  {
  }

  lemma OnlyReadable(x: X.Socket, x': X.Socket, p: Pipe)
    requires X.Only(x, x', p)
    ensures X.Readable(x') == if X.CanRead(x'.conns[p].own) then X.Readable(x) + {p} else X.Readable(x) - {p}
  {
  }

  lemma OnlyWritable(x: X.Socket, x': X.Socket, p: Pipe)
    requires X.Only(x, x', p)
    ensures X.Writable(x') == if X.CanWrite(x'.conns[p].own) then X.Writable(x) + {p} else X.Writable(x) - {p}
  {
  }

  lemma HandedSets(x: X.Socket, x': X.Socket, p: Pipe, m: Bytes)
    requires Handed(x, x', p, m)
    ensures Attached(x') == Attached(x) && X.Readable(x') == X.Readable(x) && X.Writable(x') == X.Writable(x) - {p}
  {
    OnlyAttached(x, x', p);
    OnlyReadable(x, x', p);
    OnlyWritable(x, x', p);
  }

  lemma FlushIs(x: X.Socket, before: R.Socket, after: R.Socket, entry: (Pipe, nat, Bytes), x': X.Socket)
    requires after.wire == before.wire + [entry] && entry.1 < MAX32
    requires X.Perform(x, X.Transmit(OnWire(entry))) == X.Next(x')
    ensures Flush(x, before, after) == Ok(Socket(x', after))
  {
    assert after.wire != before.wire && after.wire[|after.wire| - 1] == entry;
  }

  function Entry(x: X.Socket, r: R.Socket): (e: (Pipe, nat, Bytes))
    ensures r.id < MAX32 ==> e.1 < MAX32
  {
    (Chosen(x).pipe, R.Key(r.id), if r.submitted == [] then [] else r.submitted[|r.submitted| - 1])
  }

  /** The step of REQ before it goes out: its last entry, if it has a new one, names the chosen pipe. */
  predicate Transmitted(x: X.Socket, before: R.Socket, after: R.Socket) {
    after.wire == before.wire || after.wire == before.wire + [Entry(x, after)]
  }

  /** The entry, if there is a new one, has been handed to its pipe. */
  predicate Flushed(x: X.Socket, before: R.Socket, after: R.Socket, x': X.Socket)
    requires after.id < MAX32
  {
    if after.wire == before.wire then x' == x else Handed(x, x', Chosen(x).pipe, OnWire(Entry(x, after)))
  }

  lemma FlushDoes(x: X.Socket, before: R.Socket, after: R.Socket) returns (x': X.Socket)
    requires X.Inv(x) && after.id < MAX32 && Transmitted(x, before, after)
    requires after.wire != before.wire ==> X.Writable(x) != {}
    ensures Flush(x, before, after) == Ok(Socket(x', after)) && X.Inv(x') && Flushed(x, before, after, x')
  {
    x' := x;
    if after.wire != before.wire {
      var entry := Entry(x, after);
      x' := TransmitHands(x, OnWire(entry));
      FlushIs(x, before, after, entry, x');
    }
  }

  lemma FlushedSets(x: X.Socket, before: R.Socket, after: R.Socket, x': X.Socket)
    requires after.id < MAX32 && Flushed(x, before, after, x')
    ensures Attached(x') == Attached(x) && X.Readable(x') == X.Readable(x)
    ensures X.Writable(x') == if after.wire == before.wire then X.Writable(x) else X.Writable(x) - {Chosen(x).pipe}
  {
    if after.wire != before.wire { HandedSets(x, x', Chosen(x).pipe, OnWire(Entry(x, after))); }
  }

  /** What a step of REQ leaves. */
  predicate Moved(x: X.Socket, r: R.Socket, a: R.Action, r': R.Socket) {
    && RT.Inv(r') && r'.pipes == RT.PipesAt(r, a) && Transmitted(x, r, r')
    && (r'.wire != r.wire ==> R.ReadyAt(r, a) != {})
    && r'.ready == if r'.wire == r.wire then R.ReadyAt(r, a) else R.ReadyAt(r, a) - {Chosen(x).pipe}
  }

  lemma ReqMoves(x: X.Socket, r: R.Socket, a: R.Action)
    requires RT.Inv(r) && R.Enabled(r, a, Chosen(x)) && !RT.Fails(r, a)
    ensures R.Step(r, a, Chosen(x)).Ok? && Moved(x, r, a, R.Step(r, a, Chosen(x)).socket)
  {
    RT.StepKeeps(r, a, Chosen(x));
    RT.SendsLatest(r, a, Chosen(x));
    RT.StepReady(r, a, Chosen(x));
  }

  lemma DoIs(s: Socket, a: R.Action)
    requires RT.Inv(s.req) && R.Enabled(s.req, a, Chosen(s.pipes))
    ensures var r := R.Step(s.req, a, Chosen(s.pipes));
            && (r.Abort? <==> RT.Fails(s.req, a))
            && Do(s, a) == if r.Abort? then Abort else Flush(s.pipes, s.req, r.socket)
  {
    RT.StepKeeps(s.req, a, Chosen(s.pipes));
  }

  lemma FlushAgrees(x: X.Socket, r: R.Socket, a: R.Action, r': R.Socket)
    requires X.Inv(x) && Moved(x, r, a, r')
    requires RT.PipesAt(r, a) == Attached(x) && R.ReadyAt(r, a) == X.Writable(x)
    ensures var f := Flush(x, r, r');
            && f.Ok? && f.socket.req == r' && Agree(f.socket.pipes, r'.pipes, r'.ready)
            && X.Readable(f.socket.pipes) == X.Readable(x)
  {
    var x' := FlushDoes(x, r, r');
    FlushedSets(x, r, r', x');
  }

  /** A call or an event at REQ while the load balancer lists what REQ takes for ready: it fails exactly as
      ReqTheory says, and the two agree again. */
  lemma DoKeeps(s: Socket, a: R.Action)
    requires X.Inv(s.pipes) && RT.Inv(s.req) && R.Enabled(s.req, a, Chosen(s.pipes))
    requires RT.PipesAt(s.req, a) == Attached(s.pipes) && R.ReadyAt(s.req, a) == X.Writable(s.pipes)
    ensures !Do(s, a).Spins? && (Do(s, a).Abort? <==> RT.Fails(s.req, a))
    ensures Do(s, a).Ok? ==>
              var s' := Do(s, a).socket;
              && Agree(s'.pipes, s'.req.pipes, s'.req.ready) && RT.Inv(s'.req)
              && X.Readable(s'.pipes) == X.Readable(s.pipes)
  {
    DoIs(s, a);
    if !RT.Fails(s.req, a) {
      ReqMoves(s.pipes, s.req, a);
      FlushAgrees(s.pipes, s.req, a, R.Step(s.req, a, Chosen(s.pipes)).socket);
    }
  }

  // ---------------------------------------------------------------- receiving

  /** One message waits at one pipe, and none at any other. */
  ghost predicate OneWaits(x: X.Socket, p: Pipe, wire: Bytes) {
    && X.Readable(x) == {p}
    && var own := x.conns[p].own; own.attached && own.queue == [wire] && !own.receiving
  }

  /** One pipe has been rid of its only message. */
  predicate Taken(x: X.Socket, x': X.Socket, p: Pipe, wire: Bytes) {
    (&& X.Only(x, x', p)
     && var own, own' := x.conns[p].own, x'.conns[p].own;
        && own'.taken == own.taken + [wire] && own'.handed == own.handed
        && own.attached && own'.attached && X.CanWrite(own') == X.CanWrite(own) && own'.queue == []) == true
  }

  lemma TakenHas(x: X.Socket, p: Pipe, wire: Bytes)
    requires p in x.conns && X.ConnOk(x.conns[p]) && X.CanRead(x.conns[p].own) && X.ReceiveFrom(x, p).Next?
    requires x.conns[p].own.queue == [wire] && !x.conns[p].own.receiving
    ensures Taken(x, X.ReceiveFrom(x, p).socket, p, wire)
  {
    T.RecvKeeps(x.conns[p].own, x.conns[p].peer);
    T.RecvMoves(x.conns[p].own, x.conns[p].peer);
  }

  lemma TakenSets(x: X.Socket, x': X.Socket, p: Pipe, wire: Bytes)
    requires Taken(x, x', p, wire)
    ensures Attached(x') == Attached(x) && X.Writable(x') == X.Writable(x) && X.Readable(x') == X.Readable(x) - {p}
  {
    OnlyAttached(x, x', p);
    OnlyReadable(x, x', p);
    OnlyWritable(x, x', p);
  }

  lemma ReceiveIs(x: X.Socket, p: Pipe, wire: Bytes)
    requires X.Head(x.fq) == Some(p) && p in x.conns && x.conns[p].own.queue == [wire]
    ensures X.Perform(x, X.Receive) == X.ReceiveFrom(x, p) && First(x) == wire
  {
  }

  lemma OneIsHead(x: X.Socket, p: Pipe, wire: Bytes)
    requires X.Inv(x) && OneWaits(x, p, wire)
    ensures X.Head(x.fq) == Some(p) && p in x.conns && X.ConnOk(x.conns[p])
  {
    X.HeadIsBest(x.fq, X.RcvPrio(x), X.Readable(x));
    assert X.Head(x.fq).value in {p};
  }

  /** nn_xreq_recv, when one message waits. */
  lemma ReceiveTakes(x: X.Socket, p: Pipe, wire: Bytes) returns (x': X.Socket)
    requires X.Inv(x) && OneWaits(x, p, wire)
    ensures X.Perform(x, X.Receive) == X.Next(x') && First(x) == wire && X.Inv(x') && Taken(x, x', p, wire)
  {
    OneIsHead(x, p, wire);
    ReceiveIs(x, p, wire);
    X.ReceiveFromKeeps(x, p);
    TakenHas(x, p, wire);
    x' := X.ReceiveFrom(x, p).socket;
  }

  lemma ReceivesNone(x: X.Socket)
    requires X.Inv(x) && X.Readable(x) == {}
    ensures X.Perform(x, X.Receive) == X.Again
  {
    X.HeadIsBest(x.fq, X.RcvPrio(x), X.Readable(x));
  }

  lemma InIs(s: Socket, x: X.Socket, turns: nat)
    requires turns >= 1 && X.Perform(s.pipes, X.Receive) == X.Next(x) && X.Perform(x, X.Receive) == X.Again
    requires R.In(s.req, [First(s.pipes)], Chosen(s.pipes)).Ok?
    ensures In(s, turns) == Ok(Socket(x, R.In(s.req, [First(s.pipes)], Chosen(s.pipes)).socket))
  {
  }

  /** nn_req_in takes the one message that waits, though it looks for no other once that answers or is too
      short. */
  lemma InTakes(s: Socket, p: Pipe, wire: Bytes, turns: nat) returns (x: X.Socket)
    requires X.Inv(s.pipes) && OneWaits(s.pipes, p, wire) && RT.Inv(s.req) && s.req.life == R.T.Active && turns >= 1
    ensures var r := R.In(s.req, [wire], Chosen(s.pipes));
            r.Ok? && RT.Inv(r.socket) && In(s, turns) == Ok(Socket(x, r.socket))
    ensures X.Inv(x) && Taken(s.pipes, x, p, wire) && X.Readable(x) == {}
  {
    x := ReceiveTakes(s.pipes, p, wire);
    TakenSets(s.pipes, x, p, wire);
    ReceivesNone(x);
    RT.InKeeps(s.req, [wire], Chosen(s.pipes));
    InIs(s, x, turns);
  }

  // ---------------------------------------------------------------- what a session raises

  /** The next event at the session is SENT: the peer has a message for it. */
  predicate Incoming(own: I.Session, a: I.Action) {
    a.Process? && own.attached && own.inbox != [] && own.inbox[0] == I.Sent
  }

  /** The next event is RECEIVED: the peer has taken the session's message. */
  predicate Acknowledged(own: I.Session, a: I.Action) {
    a.Process? && own.attached && own.inbox != [] && own.inbox[0] == I.Received
  }

  lemma IncomingIn(x: I.Session, y: I.Session, a: I.Action)
    requires T.Inv(x, y) && Incoming(x, a) && !X.CanRead(x)
    ensures var r := I.Act(x, y, a);
            r.Ok? && r.self == x.(inbox := x.inbox[1..], queue := [y.msg], instate := I.Idle, readable := true)
  {
    T.SentIs(x, y);
  }

  /** Nothing is put on record, and the pipe does not become readable. */
  predicate Quiet(x: I.Session, x': I.Session) {
    && x'.taken == x.taken && x'.handed == x.handed && (x'.attached ==> x.attached) && !X.RaisesIn(x, x')
    && !X.RaisesOut(x, x')
  }

  lemma StopQuiet(x: I.Session, y: I.Session)
    requires I.Stop(x, y).Ok?
    ensures Quiet(x, I.Stop(x, y).self)
  {
  }

  lemma AcknowledgedOut(x: I.Session, y: I.Session, a: I.Action)
    requires T.Inv(x, y) && Acknowledged(x, a)
    ensures var r := I.Act(x, y, a);
            && r.Ok? && X.RaisesOut(x, r.self)
            && r.self == x.(inbox := x.inbox[1..], sending := false, outstate := I.Idle, writable := true)
  {
  }

  lemma ActiveQuiet(x: I.Session, y: I.Session, e: I.Event)
    requires I.HandleActive(x, y, e).Ok? && e == I.Disconnect
    ensures Quiet(x, I.HandleActive(x, y, e).self)
  {
    if x.owner == I.Binproc {
      StopQuiet(I.PipeStop(x).(state := I.Disconnected), I.Raise(y, I.Disconnect));
    }
  }

  lemma ShutdownQuiet(x: I.Session, y: I.Session, e: I.Event)
    requires I.HandleShutdown(x, y, e).Ok?
    ensures Quiet(x, I.HandleShutdown(x, y, e).self)
  {
  }

  lemma DeliverQuiet(x: I.Session, y: I.Session)
    requires x.inbox != [] && I.Deliver(x, y).Ok? && (x.state == I.Active ==> x.inbox[0] == I.Disconnect)
    ensures Quiet(x, I.Deliver(x, y).self)
  {
    if x.state == I.Active { ActiveQuiet(x.(inbox := x.inbox[1..]), y, x.inbox[0]); }
    else if x.state != I.Disconnected && x.state != I.Stopped {
      ShutdownQuiet(x.(inbox := x.inbox[1..]), y, x.inbox[0]);
    }
  }

  /** A critical section of a session raises at most one event: NN_PIPE_OUT exactly when the peer has taken the
      last message, and NN_PIPE_IN, as long as nothing waits at the session, exactly for a message of the peer;
      that message then waits alone. */
  lemma RaisesOne(x: I.Session, y: I.Session, a: I.Action)
    requires T.Inv(x, y) && I.Enabled(x, a) && (a.Process? || a.UserStop?) && !X.CanRead(x)
    ensures var r := I.Act(x, y, a); r.Ok? && T.Inv(r.self, r.peer) && X.Reports(x, r.self) && Raised(x, y, a, r.self)
  {
    X.OwnReports(x, y, a);
    if Incoming(x, a) { IncomingIn(x, y, a); }
    else if Acknowledged(x, a) { AcknowledgedOut(x, y, a); }
    else if a.Process? { DeliverQuiet(x, y); }
    else { StopQuiet(x, y); }
  }

  predicate Raised(x: I.Session, y: I.Session, a: I.Action, x': I.Session) {
    && (X.RaisesIn(x, x') <==> Incoming(x, a)) && (X.RaisesOut(x, x') <==> Acknowledged(x, a))
    && (X.RaisesIn(x, x') ==> x'.queue == [y.msg] && !x'.receiving && !X.RaisesOut(x, x'))
    && (!X.Leaves(x, x') ==> x'.attached == x.attached)
    && x'.taken == x.taken && x'.handed == x.handed
  }

  // ---------------------------------------------------------------- one step

  /** Nothing new on record at any pipe that was there, but what it may have taken; a new pipe has no record. */
  predicate Keeps(x: X.Socket, x': X.Socket) {
    && (forall p :: p in x.conns ==>
          && p in x'.conns && x'.conns[p].own.handed == x.conns[p].own.handed
          && x.conns[p].own.taken <= x'.conns[p].own.taken)
    && forall p :: p in x'.conns && p !in x.conns ==> x'.conns[p].own.handed == []
  }

  /** One session has had its critical section; its socket has not been told yet. */
  ghost predicate Acted(x: X.Socket, x': X.Socket, p: Pipe, a: I.Action) {
    && X.Only(x, x', p)
    && X.Reports(x.conns[p].own, x'.conns[p].own) && Raised(x.conns[p].own, x.conns[p].peer, a, x'.conns[p].own)
  }

  lemma OwnActed(x: X.Socket, p: Pipe, a: I.Action)
    requires X.Enabled(x, X.Own(p, a)) && X.ConnOk(x.conns[p]) && !X.CanRead(x.conns[p].own) && X.AtOwn(x, p, a).Next?
    ensures Acted(x, X.AtOwn(x, p, a).socket, p, a)
  {
    RaisesOne(x.conns[p].own, x.conns[p].peer, a);
  }

  lemma OwnActs(x: X.Socket, p: Pipe, a: I.Action) returns (x': X.Socket)
    requires X.Inv(x) && X.Enabled(x, X.Own(p, a)) && X.Readable(x) == {}
    ensures X.Perform(x, X.Own(p, a)) == X.Next(x') && X.Inv(x') && Acted(x, x', p, a)
  {
    X.AtOwnKeeps(x, p, a);
    x' := X.AtOwn(x, p, a).socket;
    assert X.ConnOk(x.conns[p]) && p !in X.Readable(x);
    OwnActed(x, p, a);
  }

  lemma ActedSets(x: X.Socket, x': X.Socket, p: Pipe, a: I.Action)
    requires Acted(x, x', p, a) && X.Readable(x) == {}
    ensures var own, own' := x.conns[p].own, x'.conns[p].own;
            && X.Readable(x') == (if X.RaisesIn(own, own') then {p} else {})
            && X.Writable(x') == (if X.RaisesOut(own, own') then X.Writable(x) + {p}
                                  else if X.Leaves(own, own') then X.Writable(x) - {p} else X.Writable(x))
            && Attached(x') == (if X.Leaves(own, own') then Attached(x) - {p} else Attached(x))
            && (X.RaisesOut(own, own') ==> p !in X.Writable(x)) && (X.RaisesIn(own, own') ==> own'.attached)
            && (X.RaisesOut(own, own') || X.Leaves(own, own') || X.RaisesIn(own, own') ==> p in Attached(x))
  {
    OnlyAttached(x, x', p);
    OnlyReadable(x, x', p);
    OnlyWritable(x, x', p);
    assert p !in X.Readable(x);
  }

  /** NN_PIPE_IN. */
  lemma SignalIn(s: Socket, x: X.Socket, p: Pipe, a: I.Action, turns: nat) returns (x': X.Socket)
    requires Inv(s) && X.Inv(x) && Acted(s.pipes, x, p, a) && turns >= 1
    requires X.RaisesIn(s.pipes.conns[p].own, x.conns[p].own)
    ensures var wire, own := s.pipes.conns[p].peer.msg, x.conns[p].own;
            var r := R.In(s.req, [wire], Chosen(x));
            && r.Ok? && Signal(Socket(x, s.req), p, s.pipes.conns[p].own, own, turns) == Ok(Socket(x', r.socket))
            && Inv(Socket(x', r.socket)) && Taken(x, x', p, wire)
  {
    var wire := s.pipes.conns[p].peer.msg;
    ActedSets(s.pipes, x, p, a);
    x' := InTakes(Socket(x, s.req), p, wire, turns);
    TakenSets(x, x', p, wire);
    RT.InSilent(s.req, [wire], Chosen(x));
  }

  lemma OutEnabled(r: R.Socket, x: X.Socket, p: Pipe)
    requires Offers(x) && RT.LifeOk(r) && p in r.pipes && p !in r.ready && X.Writable(x) == r.ready + {p}
    ensures R.Enabled(r, R.PipeOut(p), Chosen(x))
  {
  }

  lemma SignalIs(s: Socket, p: Pipe, own: I.Session, own': I.Session, turns: nat)
    requires !X.RaisesIn(own, own') && X.Reports(own, own')
    ensures X.RaisesOut(own, own') ==> Signal(s, p, own, own', turns) == Do(s, R.PipeOut(p))
    ensures X.Leaves(own, own') ==> Signal(s, p, own, own', turns) == Do(s, R.PipeRm(p))
    ensures !X.RaisesOut(own, own') && !X.Leaves(own, own') ==> Signal(s, p, own, own', turns) == Ok(s)
  {
  }

  /** NN_PIPE_OUT. */
  lemma SignalOut(s: Socket, x: X.Socket, p: Pipe, a: I.Action, turns: nat)
    requires Inv(s) && X.Inv(x) && Acted(s.pipes, x, p, a)
    requires X.RaisesOut(s.pipes.conns[p].own, x.conns[p].own)
    ensures var r := Signal(Socket(x, s.req), p, s.pipes.conns[p].own, x.conns[p].own, turns);
            && r == Do(Socket(x, s.req), R.PipeOut(p))
            && !r.Spins? && (r.Abort? <==> RT.Fails(s.req, R.PipeOut(p))) && (r.Ok? ==> Inv(r.socket))
  {
    ActedSets(s.pipes, x, p, a);
    ChosenReady(x);
    OutEnabled(s.req, x, p);
    DoKeeps(Socket(x, s.req), R.PipeOut(p));
    SignalIs(Socket(x, s.req), p, s.pipes.conns[p].own, x.conns[p].own, turns);
  }

  lemma RmEnabled(r: R.Socket, x: X.Socket, p: Pipe)
    requires Offers(x) && RT.LifeOk(r) && p in r.pipes && X.Writable(x) == r.ready - {p}
    ensures R.Enabled(r, R.PipeRm(p), Chosen(x))
  {
  }

  /** nn_req_rm. */
  lemma SignalRm(s: Socket, x: X.Socket, p: Pipe, a: I.Action, turns: nat)
    requires Inv(s) && X.Inv(x) && Acted(s.pipes, x, p, a)
    requires X.Leaves(s.pipes.conns[p].own, x.conns[p].own)
    ensures var r := Signal(Socket(x, s.req), p, s.pipes.conns[p].own, x.conns[p].own, turns);
            r == Do(Socket(x, s.req), R.PipeRm(p)) && r.Ok? && Inv(r.socket)
  {
    ActedSets(s.pipes, x, p, a);
    ChosenReady(x);
    RmEnabled(s.req, x, p);
    DoKeeps(Socket(x, s.req), R.PipeRm(p));
    SignalIs(Socket(x, s.req), p, s.pipes.conns[p].own, x.conns[p].own, turns);
  }

  lemma SignalNone(s: Socket, x: X.Socket, p: Pipe, a: I.Action)
    requires Inv(s) && X.Inv(x) && Acted(s.pipes, x, p, a)
    requires var own, own' := s.pipes.conns[p].own, x.conns[p].own;
             !X.RaisesIn(own, own') && !X.RaisesOut(own, own') && !X.Leaves(own, own')
    ensures Inv(Socket(x, s.req))
  {
    ActedSets(s.pipes, x, p, a);
  }

  lemma OwnIs(s: Socket, p: Pipe, a: I.Action, x: X.Socket, turns: nat)
    requires Enabled(s, Own(p, a)) && X.Perform(s.pipes, X.Own(p, a)) == X.Next(x) && p in x.conns
    ensures Perform(s, Own(p, a), turns)
         == Signal(Socket(x, s.req), p, s.pipes.conns[p].own, x.conns[p].own, turns)
  {
  }

  lemma OwnKeeps(s: Socket, p: Pipe, a: I.Action, turns: nat)
    requires Inv(s) && Enabled(s, Own(p, a)) && turns >= 1
    ensures var r := Perform(s, Own(p, a), turns);
            && !r.Spins? && (r.Ok? ==> Inv(r.socket))
            && (r.Abort? <==> Acknowledged(s.pipes.conns[p].own, a) && RT.Fails(s.req, R.PipeOut(p)))
  {
    var x := OwnActs(s.pipes, p, a);
    var own, own' := s.pipes.conns[p].own, x.conns[p].own;
    OwnIs(s, p, a, x, turns);
    if X.RaisesIn(own, own') {
      var _ := SignalIn(s, x, p, a, turns);
    } else if X.RaisesOut(own, own') {
      SignalOut(s, x, p, a, turns);
    } else if X.Leaves(own, own') {
      SignalRm(s, x, p, a, turns);
    } else {
      SignalIs(Socket(x, s.req), p, own, own', turns);
      SignalNone(s, x, p, a);
    }
  }

  /** The socket has no part in what has changed at the connection. */
  predicate Unseen(x: X.Socket, x': X.Socket, p: Pipe) {
    && X.Only(x, x', p)
    && var own, own' := x.conns[p].own, x'.conns[p].own;
       && !X.RaisesIn(own, own') && !X.RaisesOut(own, own') && !X.Leaves(own, own')
       && own'.attached == own.attached && X.CanRead(own') == X.CanRead(own) && X.CanWrite(own') == X.CanWrite(own)
       && own'.taken == own.taken && own'.handed == own.handed
  }

  lemma UnseenSets(x: X.Socket, x': X.Socket, p: Pipe)
    requires Unseen(x, x', p)
    ensures Attached(x') == Attached(x) && X.Readable(x') == X.Readable(x) && X.Writable(x') == X.Writable(x)
  {
    OnlyAttached(x, x', p);
    OnlyReadable(x, x', p);
    OnlyWritable(x, x', p);
  }

  /** What a peer does stays below REQ. */
  lemma PeerActs(x: X.Socket, p: Pipe, a: I.Action) returns (x': X.Socket)
    requires X.Inv(x) && X.Enabled(x, X.Peer(p, a))
    ensures X.Perform(x, X.Peer(p, a)) == X.Next(x') && X.Inv(x') && Unseen(x, x', p)
  {
    var c := x.conns[p];
    X.AtPeerKeeps(x, p, a);
    assert X.ConnOk(c);
    X.AtPeerIs(x, p, a);
    X.PeerReports(c.own, c.peer, a);
    X.PeerOutside(c.peer, c.own, a);
    x' := X.AtPeer(x, p, a).socket;
  }

  lemma PeerIs(s: Socket, p: Pipe, a: I.Action, x: X.Socket, turns: nat)
    requires Enabled(s, Peer(p, a)) && X.Perform(s.pipes, X.Peer(p, a)) == X.Next(x) && Unseen(s.pipes, x, p)
    ensures Perform(s, Peer(p, a), turns) == Ok(Socket(x, s.req))
  {
  }

  lemma PeerKeeps(s: Socket, p: Pipe, a: I.Action, turns: nat)
    requires Inv(s) && Enabled(s, Peer(p, a))
    ensures Perform(s, Peer(p, a), turns).Ok? && Inv(Perform(s, Peer(p, a), turns).socket)
  {
    var x := PeerActs(s.pipes, p, a);
    PeerIs(s, p, a, x, turns);
    UnseenSets(s.pipes, x, p);
  }

  lemma PipeAddIs(s: Socket, p: Pipe)
    requires Offers(s.pipes) && s.req.ready == X.Writable(s.pipes) && p !in s.req.pipes && s.req.life == R.T.Active
    ensures Do(s, R.PipeAdd(p)) == Ok(Socket(s.pipes, Added(s.req, p)))
  {
  }

  /** A pipe has been added, with nothing on record. */
  predicate Entered(x: X.Socket, x': X.Socket, p: Pipe) {
    && p !in x.conns && p in x'.conns && x'.conns == x.conns[p := x'.conns[p]]
    && var own := x'.conns[p].own;
       own.attached && !X.CanRead(own) && X.CanWrite(own) && own.taken == own.handed == []
  }

  lemma AttachActs(x: X.Socket, t: X.Step) returns (x': X.Socket)
    requires X.Inv(x) && t.Attach? && X.Enabled(x, t)
    ensures X.Perform(x, t) == X.Next(x') && X.Inv(x') && Entered(x, x', t.p)
  {
    X.AttachKeeps(x, t);
    x' := X.Perform(x, t).socket;
  }

  lemma EnteredSets(x: X.Socket, x': X.Socket, p: Pipe)
    requires Entered(x, x', p)
    ensures Attached(x') == Attached(x) + {p}
    ensures X.Readable(x') == X.Readable(x)
    ensures X.Writable(x') == X.Writable(x) + {p}
  {
  }

  lemma EnteredKeeps(x: X.Socket, x': X.Socket, p: Pipe)
    requires Entered(x, x', p)
    ensures Keeps(x, x')
  {
  }

  lemma AttachIs(s: Socket, t: Step, x: X.Socket)
    requires t.Attach? && Enabled(s, t) && X.Perform(s.pipes, Below(t)) == X.Next(x)
    requires Do(s, R.PipeAdd(t.p)) == Ok(Socket(s.pipes, Added(s.req, t.p)))
    ensures AttachPipe(s, t) == Do(Socket(x, Added(s.req, t.p)), R.PipeOut(t.p))
  {
  }

  /** nn_req_add, before NN_PIPE_OUT. */
  function Added(r: R.Socket, p: Pipe): R.Socket { r.(pipes := r.pipes + {p}) }

  lemma AttachCalls(s: Socket, t: Step) returns (x: X.Socket)
    requires Inv(s) && t.Attach? && Enabled(s, t)
    ensures var s1 := Socket(x, Added(s.req, t.p));
            && X.Inv(x) && RT.Inv(s1.req) && Keeps(s.pipes, x) && R.Enabled(s1.req, R.PipeOut(t.p), Chosen(x))
            && s1.req.pipes == Attached(x) && s1.req.ready + {t.p} == X.Writable(x) && X.Readable(x) == {}
            && AttachPipe(s, t) == Do(s1, R.PipeOut(t.p))
  {
    x := AttachActs(s.pipes, Below(t));
    EnteredSets(s.pipes, x, t.p);
    EnteredKeeps(s.pipes, x, t.p);
    ChosenReady(x);
    ChosenReady(s.pipes);
    PipeAddIs(s, t.p);
    AttachIs(s, t, x);
    RT.PipeAddKeeps(s.req, t.p, Chosen(s.pipes));
    OutEnabled(Added(s.req, t.p), x, t.p);
  }

  lemma AttachKeeps(s: Socket, t: Step)
    requires Inv(s) && t.Attach? && Enabled(s, t)
    ensures var r := AttachPipe(s, t);
            !r.Spins? && (r.Abort? <==> RT.Fails(s.req, R.PipeOut(t.p))) && (r.Ok? ==> Inv(r.socket))
  {
    var x := AttachCalls(s, t);
    DoKeeps(Socket(x, Added(s.req, t.p)), R.PipeOut(t.p));
  }

  /** The steps that fail an assertion, in REQ: those of a user who does what no call refuses, and an event
      that lets a delayed request out under a negative interval. */
  predicate Fails(s: Socket, t: Step)
    requires Enabled(s, t)
  {
    match t
    case Call(a) => RT.Fails(s.req, a)
    case Attach(p, _, _, _, _, _, _) => RT.Fails(s.req, R.PipeOut(p))
    case Own(p, a) => Acknowledged(s.pipes.conns[p].own, a) && RT.Fails(s.req, R.PipeOut(p))
    case Peer(_, _) => false
  }

  /** Whatever comes next: REQ is told only what it expects, its loop ends with its first turn, it fails in the
      steps above and no others, and no message is left waiting at an attached pipe. */
  lemma StepKeeps(s: Socket, t: Step, turns: nat)
    requires Inv(s) && Enabled(s, t) && turns >= 1
    ensures !Perform(s, t, turns).Spins?
    ensures Perform(s, t, turns).Abort? <==> Fails(s, t)
    ensures Perform(s, t, turns).Ok? ==> Inv(Perform(s, t, turns).socket)
  {
    match t
    case Call(a) => DoKeeps(s, a);
    case Attach(_, _, _, _, _, _, _) => AttachKeeps(s, t);
    case Own(p, a) => OwnKeeps(s, p, a, turns);
    case Peer(p, a) => PeerKeeps(s, p, a, turns);
  }

  // ---------------------------------------------------------------- what is on record

  /** Every id on record fits its header. */
  predicate Sound(wire: seq<(Pipe, nat, Bytes)>) {
    forall k :: 0 <= k < |wire| ==> wire[k].1 < MAX32
  }

  /** The transmissions to one pipe, as it was handed them. */
  function On(wire: seq<(Pipe, nat, Bytes)>, p: Pipe): seq<Bytes>
    requires Sound(wire)
  {
    if wire == [] then []
    else
      var last := wire[|wire| - 1];
      On(wire[..|wire| - 1], p) + if last.0 == p then [OnWire(last)] else []
  }

  lemma OnMore(wire: seq<(Pipe, nat, Bytes)>, entry: (Pipe, nat, Bytes), p: Pipe)
    requires Sound(wire) && entry.1 < MAX32
    ensures Sound(wire + [entry])
    ensures On(wire + [entry], p) == if entry.0 == p then On(wire, p) + [OnWire(entry)] else On(wire, p)
  {
    assert (wire + [entry])[..|wire + [entry]| - 1] == wire;
  }

  lemma {:induction false} OnNone(wire: seq<(Pipe, nat, Bytes)>, p: Pipe)
    requires Sound(wire) && forall k :: 0 <= k < |wire| ==> wire[k].0 != p
    ensures On(wire, p) == []
  {
    if wire != [] { OnNone(wire[..|wire| - 1], p); }
  }

  /** Each pipe was handed what REQ transmitted to it, and nothing else. */
  predicate Logged(x: X.Socket, wire: seq<(Pipe, nat, Bytes)>) {
    && Sound(wire) && (forall k :: 0 <= k < |wire| ==> wire[k].0 in x.conns)
    && forall p :: p in x.conns ==> x.conns[p].own.handed == On(wire, p)
  }

  /** A stored reply came out of a pipe. */
  ghost predicate Origin(x: X.Socket, r: R.Socket) {
    RT.Holds(r) && r.reply.Whole? && r.id < MAX32 ==>
      exists p :: p in x.conns && Put32(R.Key(r.id)) + r.reply.body in x.conns[p].own.taken
  }

  ghost predicate History(s: Socket) { (Logged(s.pipes, s.req.wire) && Origin(s.pipes, s.req)) == true }

  lemma LoggedKept(x: X.Socket, x': X.Socket, wire: seq<(Pipe, nat, Bytes)>)
    requires Logged(x, wire) && Keeps(x, x')
    ensures Logged(x', wire)
  {
    forall p | p in x'.conns && p !in x.conns ensures On(wire, p) == [] { OnNone(wire, p); }
  }

  lemma OriginKept(x: X.Socket, x': X.Socket, r: R.Socket)
    requires Origin(x, r) && Keeps(x, x')
    ensures Origin(x', r)
  {
    if RT.Holds(r) && r.reply.Whole? && r.id < MAX32 {
      var m := Put32(R.Key(r.id)) + r.reply.body;
      var p :| p in x.conns && m in x.conns[p].own.taken;
      assert p in x'.conns && m in x'.conns[p].own.taken;
    }
  }

  lemma LoggedHanded(x: X.Socket, x': X.Socket, wire: seq<(Pipe, nat, Bytes)>, entry: (Pipe, nat, Bytes))
    requires Logged(x, wire) && entry.1 < MAX32 && Handed(x, x', entry.0, OnWire(entry))
    ensures Logged(x', wire + [entry])
  {
    OnMore(wire, entry, entry.0);
    forall p | p in x'.conns ensures x'.conns[p].own.handed == On(wire + [entry], p) {
      OnMore(wire, entry, p);
    }
  }

  lemma OriginHanded(x: X.Socket, x': X.Socket, p: Pipe, m: Bytes, r: R.Socket)
    requires Origin(x, r) && Handed(x, x', p, m)
    ensures Origin(x', r)
  {
    if RT.Holds(r) && r.reply.Whole? && r.id < MAX32 {
      var reply := Put32(R.Key(r.id)) + r.reply.body;
      var q :| q in x.conns && reply in x.conns[q].own.taken;
      assert q in x'.conns && reply in x'.conns[q].own.taken;
    }
  }

  /** Only an arrival brings a reply. */
  lemma OriginStep(x: X.Socket, r: R.Socket, a: R.Action, c: R.Choice)
    requires Origin(x, r) && RT.Inv(r) && !a.Arrive? && R.Enabled(r, a, c) && R.Step(r, a, c).Ok?
    ensures Origin(x, R.Step(r, a, c).socket)
  {
    if RT.Holds(R.Step(r, a, c).socket) { RT.HeldFrom(r, a, c); }
  }

  lemma FlushedRecords(x: X.Socket, before: R.Socket, after: R.Socket, x': X.Socket)
    requires after.id < MAX32 && Transmitted(x, before, after) && Flushed(x, before, after, x')
    requires Logged(x, before.wire) && Origin(x, after)
    ensures History(Socket(x', after))
  {
    if after.wire != before.wire {
      var entry := Entry(x, after);
      LoggedHanded(x, x', before.wire, entry);
      OriginHanded(x, x', entry.0, OnWire(entry), after);
    }
  }

  lemma DoRecords(s: Socket, a: R.Action)
    requires X.Inv(s.pipes) && RT.Inv(s.req) && !a.Arrive? && R.Enabled(s.req, a, Chosen(s.pipes))
    requires R.ReadyAt(s.req, a) == X.Writable(s.pipes) && History(s) && Do(s, a).Ok?
    ensures History(Do(s, a).socket)
  {
    DoIs(s, a);
    ReqMoves(s.pipes, s.req, a);
    OriginStep(s.pipes, s.req, a, Chosen(s.pipes));
    var r := R.Step(s.req, a, Chosen(s.pipes)).socket;
    var x := FlushDoes(s.pipes, s.req, r);
    FlushedRecords(s.pipes, s.req, r, x);
  }

  lemma ActedKeeps(x: X.Socket, x': X.Socket, p: Pipe, a: I.Action)
    requires Acted(x, x', p, a)
    ensures Keeps(x, x')
  {
  }

  lemma TakenKeeps(x: X.Socket, x': X.Socket, p: Pipe, wire: Bytes)
    requires Taken(x, x', p, wire)
    ensures Keeps(x, x') && wire in x'.conns[p].own.taken
  {
  }

  lemma KeepsRecords(x: X.Socket, x': X.Socket, r: R.Socket)
    requires History(Socket(x, r)) && Keeps(x, x')
    ensures History(Socket(x', r))
  {
    LoggedKept(x, x', r.wire);
    OriginKept(x, x', r);
  }

  /** An arrival that is stored came out of the pipe it was taken from. */
  lemma ArrivalOrigin(x: X.Socket, r: R.Socket, p: Pipe, wire: Bytes, c: R.Choice)
    requires RT.Inv(r) && r.life == R.T.Active && p in x.conns && wire in x.conns[p].own.taken
    ensures R.In(r, [wire], c).Ok? && Origin(x, R.In(r, [wire], c).socket)
  {
    RT.InKeeps(r, [wire], c);
    var r' := R.In(r, [wire], c).socket;
    if RT.Holds(r') && r'.reply.Whole? {
      RT.ArrivalHeld(r, [wire], c);
      RT.StoresFrom(r.reply, [wire], Put32(R.Key(r.id)));
      assert Put32(R.Key(r'.id)) + r'.reply.body in [wire];
    }
  }

  lemma InRecords(x: X.Socket, x': X.Socket, r: R.Socket, p: Pipe, wire: Bytes, c: R.Choice)
    requires RT.Inv(r) && r.life == R.T.Active && History(Socket(x, r)) && Taken(x, x', p, wire)
    ensures R.In(r, [wire], c).Ok? && History(Socket(x', R.In(r, [wire], c).socket))
  {
    TakenKeeps(x, x', p, wire);
    LoggedKept(x, x', r.wire);
    ArrivalOrigin(x', r, p, wire, c);
    RT.InSilent(r, [wire], c);
  }

  lemma LifeActive(s: Socket, x: X.Socket, p: Pipe, a: I.Action)
    requires Inv(s) && Acted(s.pipes, x, p, a)
    requires var own, own' := s.pipes.conns[p].own, x.conns[p].own;
             X.RaisesIn(own, own') || X.RaisesOut(own, own') || X.Leaves(own, own')
    ensures s.req.life == R.T.Active
  {
    ActedSets(s.pipes, x, p, a);
  }

  lemma SignalOutRecords(s: Socket, x: X.Socket, p: Pipe, a: I.Action)
    requires Inv(s) && X.Inv(x) && Acted(s.pipes, x, p, a) && History(Socket(x, s.req))
    requires X.RaisesOut(s.pipes.conns[p].own, x.conns[p].own) && Do(Socket(x, s.req), R.PipeOut(p)).Ok?
    ensures History(Do(Socket(x, s.req), R.PipeOut(p)).socket)
  {
    ActedSets(s.pipes, x, p, a);
    ChosenReady(x);
    OutEnabled(s.req, x, p);
    DoRecords(Socket(x, s.req), R.PipeOut(p));
  }

  lemma SignalRmRecords(s: Socket, x: X.Socket, p: Pipe, a: I.Action)
    requires Inv(s) && X.Inv(x) && Acted(s.pipes, x, p, a) && History(Socket(x, s.req))
    requires X.Leaves(s.pipes.conns[p].own, x.conns[p].own) && Do(Socket(x, s.req), R.PipeRm(p)).Ok?
    ensures History(Do(Socket(x, s.req), R.PipeRm(p)).socket)
  {
    ActedSets(s.pipes, x, p, a);
    ChosenReady(x);
    RmEnabled(s.req, x, p);
    DoRecords(Socket(x, s.req), R.PipeRm(p));
  }

  lemma OwnRecords(s: Socket, p: Pipe, a: I.Action, turns: nat)
    requires Inv(s) && History(s) && Enabled(s, Own(p, a)) && turns >= 1 && Perform(s, Own(p, a), turns).Ok?
    ensures History(Perform(s, Own(p, a), turns).socket)
  {
    var x := OwnActs(s.pipes, p, a);
    var own, own' := s.pipes.conns[p].own, x.conns[p].own;
    OwnIs(s, p, a, x, turns);
    ActedKeeps(s.pipes, x, p, a);
    KeepsRecords(s.pipes, x, s.req);
    if X.RaisesIn(own, own') {
      LifeActive(s, x, p, a);
      var x' := SignalIn(s, x, p, a, turns);
      InRecords(x, x', s.req, p, s.pipes.conns[p].peer.msg, Chosen(x));
    } else {
      SignalIs(Socket(x, s.req), p, own, own', turns);
      if X.RaisesOut(own, own') { SignalOutRecords(s, x, p, a); }
      else if X.Leaves(own, own') { SignalRmRecords(s, x, p, a); }
    }
  }

  lemma UnseenKeeps(x: X.Socket, x': X.Socket, p: Pipe)
    requires Unseen(x, x', p)
    ensures Keeps(x, x')
  {
  }

  lemma PeerRecords(s: Socket, p: Pipe, a: I.Action, turns: nat)
    requires Inv(s) && History(s) && Enabled(s, Peer(p, a))
    ensures Perform(s, Peer(p, a), turns).Ok? && History(Perform(s, Peer(p, a), turns).socket)
  {
    var x := PeerActs(s.pipes, p, a);
    PeerIs(s, p, a, x, turns);
    UnseenKeeps(s.pipes, x, p);
    KeepsRecords(s.pipes, x, s.req);
  }

  lemma AttachRecords(s: Socket, t: Step)
    requires Inv(s) && History(s) && t.Attach? && Enabled(s, t) && AttachPipe(s, t).Ok?
    ensures History(AttachPipe(s, t).socket)
  {
    var x := AttachCalls(s, t);
    KeepsRecords(s.pipes, x, s.req);
    DoRecords(Socket(x, Added(s.req, t.p)), R.PipeOut(t.p));
  }

  lemma StepRecords(s: Socket, t: Step, turns: nat)
    requires Inv(s) && History(s) && Enabled(s, t) && turns >= 1 && Perform(s, t, turns).Ok?
    ensures History(Perform(s, t, turns).socket)
  {
    match t
    case Call(a) => DoRecords(s, a);
    case Attach(_, _, _, _, _, _, _) => AttachRecords(s, t);
    case Own(p, a) => OwnRecords(s, p, a, turns);
    case Peer(p, a) => PeerRecords(s, p, a, turns);
  }

  // ---------------------------------------------------------------- runs

  /** ss is a run of a REQ socket that nn_req_init has started, and of its peers. */
  ghost predicate Run(ss: seq<Socket>, steps: seq<Step>, turns: nat) {
    && |ss| == |steps| + 1 && ss[0].pipes == X.NEW && ss[0].req.id < MAX32 && ss[0].req == R.Start(ss[0].req.id)
    && forall i :: 0 <= i < |steps| ==> Enabled(ss[i], steps[i]) && Perform(ss[i], steps[i], turns) == Ok(ss[i + 1])
  }

  lemma StartInv(s: Socket)
    requires s.pipes == X.NEW && s.req.id < MAX32 && s.req == R.Start(s.req.id)
    ensures Inv(s) && History(s)
  {
    X.NewInv();
    RT.StartInv(s.req.id);
    assert Attached(s.pipes) == {} && X.Readable(s.pipes) == {} && X.Writable(s.pipes) == {};
  }

  lemma Goes(s: Socket, t: Step, turns: nat, s': Socket)
    requires Inv(s) && History(s) && Enabled(s, t) && turns >= 1 && Perform(s, t, turns) == Ok(s')
    ensures Inv(s') && History(s')
  {
    StepKeeps(s, t, turns);
    StepRecords(s, t, turns);
  }

  lemma {:induction false} RunKeeps(ss: seq<Socket>, steps: seq<Step>, turns: nat, i: nat)
    requires Run(ss, steps, turns) && i < |ss| && turns >= 1
    ensures Inv(ss[i]) && History(ss[i])
  {
    if i == 0 {
      StartInv(ss[0]);
    } else {
      RunKeeps(ss, steps, turns, i - 1);
      Goes(ss[i - 1], steps[i - 1], turns, ss[i]);
    }
  }

  /** The two machines together fail where REQ alone does and nowhere else, whatever comes next; and the loop of
      nn_req_in never goes on after its first turn. */
  lemma FailsExactly(ss: seq<Socket>, steps: seq<Step>, turns: nat, t: Step)
    requires Run(ss, steps, turns) && turns >= 1 && Enabled(ss[|steps|], t)
    ensures !Perform(ss[|steps|], t, turns).Spins?
    ensures Perform(ss[|steps|], t, turns).Abort? <==> Fails(ss[|steps|], t)
  {
    RunKeeps(ss, steps, turns, |steps|);
    StepKeeps(ss[|steps|], t, turns);
  }

  /** Between two critical sections no message waits at an attached pipe, and REQ takes for attached and for
      ready exactly the pipes that are. */
  lemma NothingWaits(ss: seq<Socket>, steps: seq<Step>, turns: nat, i: nat, p: Pipe)
    requires Run(ss, steps, turns) && turns >= 1 && i < |ss| && p in ss[i].pipes.conns
    ensures var own, r := ss[i].pipes.conns[p].own, ss[i].req;
            && (own.attached ==> own.queue == []) && (p in r.pipes <==> own.attached)
            && (p in r.ready <==> own.attached && !own.sending)
  {
    RunKeeps(ss, steps, turns, i);
    assert p !in X.Readable(ss[i].pipes);
  }

  /** No lost wake-up: the event that a message has come reaches nn_req_in, which takes this message, though it
      stops at the first that answers and at one that is too short. */
  lemma ArrivalHandled(ss: seq<Socket>, steps: seq<Step>, turns: nat, p: Pipe)
    requires Run(ss, steps, turns) && turns >= 1 && p in ss[|steps|].pipes.conns
    requires Incoming(ss[|steps|].pipes.conns[p].own, I.Process)
    ensures var s, wire := ss[|steps|], ss[|steps|].pipes.conns[p].peer.msg;
            && Enabled(s, Own(p, I.Process)) && Perform(s, Own(p, I.Process), turns).Ok?
            && var s' := Perform(s, Own(p, I.Process), turns).socket;
               && p in s'.pipes.conns && s'.pipes.conns[p].own.taken == s.pipes.conns[p].own.taken + [wire]
               && R.In(s.req, [wire], Chosen(s.pipes)) == R.Ok(s'.req)
  {
    RunKeeps(ss, steps, turns, |steps|);
    InHandled(ss[|steps|], p, turns);
  }

  lemma InHandled(s: Socket, p: Pipe, turns: nat)
    requires Inv(s) && turns >= 1 && p in s.pipes.conns && Incoming(s.pipes.conns[p].own, I.Process)
    ensures Perform(s, Own(p, I.Process), turns).Ok?
    ensures var s', wire := Perform(s, Own(p, I.Process), turns).socket, s.pipes.conns[p].peer.msg;
            && p in s'.pipes.conns && s'.pipes.conns[p].own.taken == s.pipes.conns[p].own.taken + [wire]
            && R.In(s.req, [wire], Chosen(s.pipes)) == R.Ok(s'.req)
  {
    var x := OwnActs(s.pipes, p, I.Process);
    OwnIs(s, p, I.Process, x, turns);
    var x' := SignalIn(s, x, p, I.Process, turns);
    LifeActive(s, x, p, I.Process);
    SameIn(s.req, s.pipes.conns[p].peer.msg, Chosen(x), Chosen(s.pipes));
  }

  /** nn_req_in transmits nothing, so it does not matter which pipe would be next. */
  lemma SameIn(r: R.Socket, wire: Bytes, c: R.Choice, d: R.Choice)
    requires RT.Inv(r) && r.life == R.T.Active
    ensures R.In(r, [wire], c) == R.In(r, [wire], d)
  {
    RT.InSpec(r, [wire], c);
    RT.InSpec(r, [wire], d);
  }

  /** The answer to the latest request, whichever pipe brings it while REQ waits for it, is stored and stops the
      timer. */
  lemma AnswerStored(ss: seq<Socket>, steps: seq<Step>, turns: nat, p: Pipe, body: Bytes)
    requires Run(ss, steps, turns) && turns >= 1 && p in ss[|steps|].pipes.conns
    requires Incoming(ss[|steps|].pipes.conns[p].own, I.Process)
    requires var s := ss[|steps|];
             s.req.state == R.Active && s.req.id < MAX32 && s.pipes.conns[p].peer.msg == Put32(R.Key(s.req.id)) + body
    ensures Enabled(ss[|steps|], Own(p, I.Process)) && Perform(ss[|steps|], Own(p, I.Process), turns).Ok?
    ensures var r := Perform(ss[|steps|], Own(p, I.Process), turns).socket.req;
            r.state == R.StoppingTimer && r.reply == R.Whole(body)
  {
    var s := ss[|steps|];
    var wire, c := s.pipes.conns[p].peer.msg, Chosen(s.pipes);
    ArrivalHandled(ss, steps, turns, p);
    RunKeeps(ss, steps, turns, |steps|);
    AnswerTaken(s.req, body, c);
  }

  lemma AnswerTaken(r: R.Socket, body: Bytes, c: R.Choice)
    requires RT.Inv(r) && r.state == R.Active
    ensures var r' := R.In(r, [Put32(R.Key(r.id)) + body], c);
            r'.Ok? && r'.socket.state == R.StoppingTimer && r'.socket.reply == R.Whole(body)
  {
    var wire := Put32(R.Key(r.id)) + body;
    RT.AnswersExactly(r, wire);
    assert wire[4..] == body;
    RT.StopTimerKeeps(r.(reply := R.Whole(body)), R.StoppingTimer);
  }

  /** What a pipe is handed is what REQ has transmitted to it, in order; the peer has received a prefix. */
  lemma HandedExactly(ss: seq<Socket>, steps: seq<Step>, turns: nat, i: nat, p: Pipe)
    requires Run(ss, steps, turns) && turns >= 1 && i < |ss| && p in ss[i].pipes.conns
    ensures Sound(ss[i].req.wire)
    ensures var c := ss[i].pipes.conns[p]; c.peer.taken <= c.own.handed == On(ss[i].req.wire, p)
  {
    RunKeeps(ss, steps, turns, i);
    assert X.ConnOk(ss[i].pipes.conns[p]);
  }

  lemma PeerSent(c: X.Conn, m: Bytes)
    requires X.ConnOk(c) && m in c.own.taken
    ensures m in c.peer.handed
  {
    assert T.DeliveryOk(c.peer, c.own);
  }

  lemma SentBy(x: X.Socket, r: R.Socket) returns (p: Pipe)
    requires Origin(x, r) && RT.Holds(r) && r.reply.Whole? && r.id < MAX32
    requires forall q :: q in x.conns ==> X.ConnOk(x.conns[q])
    ensures p in x.conns && Put32(R.Key(r.id)) + r.reply.body in x.conns[p].peer.handed
  {
    var m := Put32(R.Key(r.id)) + r.reply.body;
    p :| p in x.conns && m in x.conns[p].own.taken;
    PeerSent(x.conns[p], m);
  }

  /** A whole reply that waits for the user was sent, under the id of the latest request, by the peer of some
      pipe. */
  lemma ReplyWasSent(ss: seq<Socket>, steps: seq<Step>, turns: nat, i: nat) returns (p: Pipe)
    requires Run(ss, steps, turns) && turns >= 1 && i < |ss| && RT.Holds(ss[i].req) && ss[i].req.reply.Whole?
    ensures p in ss[i].pipes.conns && ss[i].req.id < MAX32
    ensures Put32(R.Key(ss[i].req.id)) + ss[i].req.reply.body in ss[i].pipes.conns[p].peer.handed
  {
    RunKeeps(ss, steps, turns, i);
    p := SentBy(ss[i].pipes, ss[i].req);
  }

  // ---------------------------------------------------------------- a run of REQ within it

  /** What REQ is told in a step. */
  function Told(s: Socket, t: Step): seq<R.Action>
    requires Enabled(s, t)
  {
    match t
    case Call(a) => [a]
    case Attach(p, _, _, _, _, _, _) => [R.PipeAdd(p), R.PipeOut(p)]
    case Own(p, a) =>
      var c := s.pipes.conns[p];
      if Incoming(c.own, a) then [R.Arrive([c.peer.msg])]
      else if Acknowledged(c.own, a) then [R.PipeOut(p)]
      else
        var r := I.Act(c.own, c.peer, a);
        if r.Ok? && X.Leaves(c.own, r.self) then [R.PipeRm(p)] else []
    case Peer(_, _) => []
  }

  /** Steps of REQ. */
  predicate Path(rs: seq<R.Socket>, acts: seq<R.Action>, cs: seq<R.Choice>) {
    && |rs| == |acts| + 1 == |cs| + 1
    && forall i :: 0 <= i < |acts| ==>
         R.Enabled(rs[i], acts[i], cs[i]) && R.Step(rs[i], acts[i], cs[i]) == R.Ok(rs[i + 1])
  }

  lemma DoPath(s: Socket, a: R.Action)
    requires Do(s, a).Ok?
    ensures Path([s.req, Do(s, a).socket.req], [a], [Chosen(s.pipes)])
  {
  }

  lemma InPath(s: Socket, x: X.Socket, wire: Bytes, r: R.Socket)
    requires R.In(s.req, [wire], Chosen(x)) == R.Ok(r) && s.req.life == R.T.Active
    requires Offers(x) && s.req.ready == X.Writable(x)
    ensures Path([s.req, r], [R.Arrive([wire])], [Chosen(x)])
  {
  }

  lemma PathNone(r: R.Socket)
    ensures Path([r], [], [])
  {
  }

  lemma PathMore(rs: seq<R.Socket>, acts: seq<R.Action>, cs: seq<R.Choice>,
                 rs': seq<R.Socket>, acts': seq<R.Action>, cs': seq<R.Choice>)
    requires Path(rs, acts, cs) && Path(rs', acts', cs') && rs[|acts|] == rs'[0]
    ensures Path(rs + rs'[1..], acts + acts', cs + cs')
    ensures (rs + rs'[1..])[0] == rs[0] && (rs + rs'[1..])[|acts + acts'|] == rs'[|acts'|]
  {
    forall i | 0 <= i < |acts + acts'|
      ensures R.Enabled((rs + rs'[1..])[i], (acts + acts')[i], (cs + cs')[i])
      ensures R.Step((rs + rs'[1..])[i], (acts + acts')[i], (cs + cs')[i]) == R.Ok((rs + rs'[1..])[i + 1])
    {
      if i >= |acts| { assert (rs + rs'[1..])[i] == rs'[i - |acts|]; }
    }
  }

  /** A path from the REQ of one state to the REQ of the other. */
  ghost predicate Leads(s: Socket, acts: seq<R.Action>, s': Socket) {
    exists rs, cs :: Path(rs, acts, cs) && rs[0] == s.req && rs[|acts|] == s'.req
  }

  lemma LeadsBy(s: Socket, acts: seq<R.Action>, s': Socket, rs: seq<R.Socket>, cs: seq<R.Choice>)
    requires Path(rs, acts, cs) && rs[0] == s.req && rs[|acts|] == s'.req
    ensures Leads(s, acts, s')
  {
  }

  lemma LeadsOn(s: Socket, acts: seq<R.Action>, s': Socket, acts': seq<R.Action>, s'': Socket)
    requires Leads(s, acts, s') && Leads(s', acts', s'')
    ensures Leads(s, acts + acts', s'')
  {
    var rs, cs :| Path(rs, acts, cs) && rs[0] == s.req && rs[|acts|] == s'.req;
    var rs', cs' :| Path(rs', acts', cs') && rs'[0] == s'.req && rs'[|acts'|] == s''.req;
    PathMore(rs, acts, cs, rs', acts', cs');
    LeadsBy(s, acts + acts', s'', rs + rs'[1..], cs + cs');
  }

  lemma DoLeads(s: Socket, a: R.Action)
    requires Do(s, a).Ok?
    ensures Leads(s, [a], Do(s, a).socket)
  {
    DoPath(s, a);
    LeadsBy(s, [a], Do(s, a).socket, [s.req, Do(s, a).socket.req], [Chosen(s.pipes)]);
  }

  /** The pipes below do not matter. */
  lemma LeadsFrom(s: Socket, x: X.Socket, acts: seq<R.Action>, s': Socket)
    requires Leads(Socket(x, s.req), acts, s')
    ensures Leads(s, acts, s')
  {
    var rs, cs :| Path(rs, acts, cs) && rs[0] == s.req && rs[|acts|] == s'.req;
    LeadsBy(s, acts, s', rs, cs);
  }

  lemma LeadsNowhere(s: Socket, s': Socket)
    requires s'.req == s.req
    ensures Leads(s, [], s')
  {
    PathNone(s.req);
    LeadsBy(s, [], s', [s.req], []);
  }

  lemma InLeads(s: Socket, x: X.Socket, p: Pipe, a: I.Action, turns: nat)
    requires Inv(s) && X.Inv(x) && Acted(s.pipes, x, p, a) && turns >= 1
    requires X.RaisesIn(s.pipes.conns[p].own, x.conns[p].own)
    ensures var r := Signal(Socket(x, s.req), p, s.pipes.conns[p].own, x.conns[p].own, turns);
            r.Ok? && Leads(s, [R.Arrive([s.pipes.conns[p].peer.msg])], r.socket)
  {
    var wire := s.pipes.conns[p].peer.msg;
    var x' := SignalIn(s, x, p, a, turns);
    LifeActive(s, x, p, a);
    ActedSets(s.pipes, x, p, a);
    ChosenReady(x);
    var r := R.In(s.req, [wire], Chosen(x)).socket;
    InPath(s, x, wire, r);
    LeadsBy(s, [R.Arrive([wire])], Socket(x', r), [s.req, r], [Chosen(x)]);
  }

  lemma OwnLeads(s: Socket, p: Pipe, a: I.Action, turns: nat)
    requires Inv(s) && Enabled(s, Own(p, a)) && turns >= 1 && Perform(s, Own(p, a), turns).Ok?
    ensures Leads(s, Told(s, Own(p, a)), Perform(s, Own(p, a), turns).socket)
  {
    var x := OwnActs(s.pipes, p, a);
    var own, own' := s.pipes.conns[p].own, x.conns[p].own;
    OwnIs(s, p, a, x, turns);
    OwnTold(s, p, a, x);
    if X.RaisesIn(own, own') {
      InLeads(s, x, p, a, turns);
    } else {
      SignalIs(Socket(x, s.req), p, own, own', turns);
      if X.RaisesOut(own, own') {
        DoLeads(Socket(x, s.req), R.PipeOut(p));
        LeadsFrom(s, x, [R.PipeOut(p)], Perform(s, Own(p, a), turns).socket);
      } else if X.Leaves(own, own') {
        DoLeads(Socket(x, s.req), R.PipeRm(p));
        LeadsFrom(s, x, [R.PipeRm(p)], Perform(s, Own(p, a), turns).socket);
      } else {
        LeadsNowhere(s, Socket(x, s.req));
      }
    }
  }

  lemma OwnTold(s: Socket, p: Pipe, a: I.Action, x: X.Socket)
    requires Enabled(s, Own(p, a)) && X.Perform(s.pipes, X.Own(p, a)) == X.Next(x) && Acted(s.pipes, x, p, a)
    ensures var own, own' := s.pipes.conns[p].own, x.conns[p].own;
            Told(s, Own(p, a)) ==
            if X.RaisesIn(own, own') then [R.Arrive([s.pipes.conns[p].peer.msg])]
            else if X.RaisesOut(own, own') then [R.PipeOut(p)]
            else if X.Leaves(own, own') then [R.PipeRm(p)] else []
  {
  }

  lemma PeerLeads(s: Socket, p: Pipe, a: I.Action, turns: nat)
    requires Inv(s) && Enabled(s, Peer(p, a))
    ensures Perform(s, Peer(p, a), turns).Ok? && Leads(s, [], Perform(s, Peer(p, a), turns).socket)
  {
    var x := PeerActs(s.pipes, p, a);
    PeerIs(s, p, a, x, turns);
    LeadsNowhere(s, Socket(x, s.req));
  }

  lemma AttachLeads(s: Socket, t: Step)
    requires Inv(s) && t.Attach? && Enabled(s, t) && AttachPipe(s, t).Ok?
    ensures Leads(s, [R.PipeAdd(t.p), R.PipeOut(t.p)], AttachPipe(s, t).socket)
  {
    var s1, s2 := Socket(s.pipes, Added(s.req, t.p)), AttachPipe(s, t).socket;
    AddLeads(s, t);
    OutLeads(s, t);
    LeadsOn(s, [R.PipeAdd(t.p)], s1, [R.PipeOut(t.p)], s2);
    assert [R.PipeAdd(t.p)] + [R.PipeOut(t.p)] == [R.PipeAdd(t.p), R.PipeOut(t.p)];
  }

  lemma OutLeads(s: Socket, t: Step)
    requires Inv(s) && t.Attach? && Enabled(s, t) && AttachPipe(s, t).Ok?
    ensures Leads(Socket(s.pipes, Added(s.req, t.p)), [R.PipeOut(t.p)], AttachPipe(s, t).socket)
  {
    var x := AttachCalls(s, t);
    DoLeads(Socket(x, Added(s.req, t.p)), R.PipeOut(t.p));
    LeadsFrom(Socket(s.pipes, Added(s.req, t.p)), x, [R.PipeOut(t.p)], AttachPipe(s, t).socket);
  }

  lemma AddLeads(s: Socket, t: Step)
    requires Inv(s) && t.Attach? && Enabled(s, t)
    ensures Leads(s, [R.PipeAdd(t.p)], Socket(s.pipes, Added(s.req, t.p)))
  {
    ChosenReady(s.pipes);
    PipeAddIs(s, t.p);
    DoLeads(s, R.PipeAdd(t.p));
  }

  lemma StepLeads(s: Socket, t: Step, turns: nat)
    requires Inv(s) && Enabled(s, t) && turns >= 1 && Perform(s, t, turns).Ok?
    ensures Leads(s, Told(s, t), Perform(s, t, turns).socket)
  {
    match t
    case Call(a) => DoLeads(s, a);
    case Attach(_, _, _, _, _, _, _) => AttachLeads(s, t);
    case Own(p, a) => OwnLeads(s, p, a, turns);
    case Peer(p, a) => PeerLeads(s, p, a, turns);
  }

  lemma RunStepLeads(ss: seq<Socket>, steps: seq<Step>, turns: nat, i: nat)
    requires Run(ss, steps, turns) && turns >= 1 && i < |steps|
    ensures Leads(ss[i], Told(ss[i], steps[i]), ss[i + 1])
  {
    RunKeeps(ss, steps, turns, i);
    assert Perform(ss[i], steps[i], turns) == Ok(ss[i + 1]);
    StepLeads(ss[i], steps[i], turns);
  }

  /** What REQ is told in the first n steps of a run. */
  function ToldAll(ss: seq<Socket>, steps: seq<Step>, n: nat): seq<R.Action>
    requires n <= |steps| <= |ss| && forall i :: 0 <= i < n ==> Enabled(ss[i], steps[i])
  {
    if n == 0 then [] else ToldAll(ss, steps, n - 1) + Told(ss[n - 1], steps[n - 1])
  }

  lemma RunLeadsOn(ss: seq<Socket>, steps: seq<Step>, turns: nat, n: nat)
    requires Run(ss, steps, turns) && turns >= 1 && 0 < n < |ss| && Leads(ss[0], ToldAll(ss, steps, n - 1), ss[n - 1])
    ensures Leads(ss[0], ToldAll(ss, steps, n), ss[n])
  {
    RunStepLeads(ss, steps, turns, n - 1);
    LeadsOn(ss[0], ToldAll(ss, steps, n - 1), ss[n - 1], Told(ss[n - 1], steps[n - 1]), ss[n]);
  }

  lemma {:induction false} RunLeads(ss: seq<Socket>, steps: seq<Step>, turns: nat, n: nat)
    requires Run(ss, steps, turns) && turns >= 1 && n < |ss|
    ensures Leads(ss[0], ToldAll(ss, steps, n), ss[n])
  {
    if n == 0 {
      LeadsNowhere(ss[0], ss[0]);
    } else {
      RunLeads(ss, steps, turns, n - 1);
      RunLeadsOn(ss, steps, turns, n);
    }
  }

  /** Within every run there is a run of REQ as ReqTheory has it, told of what the sessions raise and of nothing
      else: what holds of all its runs holds here. */
  lemma RefinesReq(ss: seq<Socket>, steps: seq<Step>, turns: nat, n: nat)
    returns (rs: seq<R.Socket>, cs: seq<R.Choice>)
    requires Run(ss, steps, turns) && turns >= 1 && n < |ss|
    ensures RT.Run(rs, ToldAll(ss, steps, n), cs) && rs[|ToldAll(ss, steps, n)|] == ss[n].req
  {
    RunLeads(ss, steps, turns, n);
    var acts := ToldAll(ss, steps, n);
    rs, cs :| Path(rs, acts, cs) && rs[0] == ss[0].req && rs[|acts|] == ss[n].req;
  }
}
