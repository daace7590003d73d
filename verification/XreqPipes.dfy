/** An XREQ socket (protocols/reqrep/xreq.c) with any number of inproc pipes: the sessions of Inproc
    together with the fair queue and the load balancer that list those of its pipes it can use.

    One step is one critical section of the socket, or one of a peer.  An event that a session raises to
    the socket, NN_PIPE_IN or NN_PIPE_OUT, and its removal by nn_pipebase_stop, change the lists within
    the step. */
module XreqPipes {
  import opened Options
  import opened Inproc
  import T = InprocTheory
  import P = PrioModel

  type Pipe = nat

  /** The session on this side of a connection, the one on the other side, and the priorities the pipe
      was added with. */
  datatype Conn = Conn(own: Session, peer: Session, sndprio: int, rcvprio: int)

  datatype Socket = Socket(conns: map<Pipe, Conn>, fq: P.Prio<Pipe>, lb: P.Prio<Pipe>)

  const NEW := Socket(map[], P.Start(), P.Start())

  /** Failed: an assertion fails in a session or in a list.  Again: -EAGAIN. */
  datatype Result = Failed | Again | Next(socket: Socket)

  // ---------------------------------------------------------------- the lists

  predicate Can(q: P.Prio<Pipe>, op: P.Op<Pipe>) {
    && P.Fits(q, op) && (q.current == -1 || 1 <= q.current <= P.SLOTS)
    && (op.Advance? ==> !q.slots[q.current - 1].Empty())
  }

  /** An operation of priolist.c; None when one of the assertions under it fails. */
  function Do(q: P.Prio<Pipe>, op: P.Op<Pipe>): Option<P.Prio<Pipe>> {
    if Can(q, op) then Some(P.Apply(q, op)) else None
  }

  /** nn_priolist_getpipe. */
  function Head(q: P.Prio<Pipe>): Option<Pipe> {
    if 1 <= q.current <= |q.slots| && !q.slots[q.current - 1].Empty()
    then Some(q.slots[q.current - 1].after[0])
    else None
  }

  /** What a critical section of pipe p means for one of the lists: the pipe reports that it is ready, and
      nn_pipebase_stop removes it. */
  function Inform(q: P.Prio<Pipe>, p: Pipe, priority: int, ready: bool, gone: bool): Option<P.Prio<Pipe>> {
    var q1 := if ready then Do(q, P.Activate(p, priority)) else Some(q);
    if q1.Some? && gone then Do(q1.value, P.Remove(p, priority)) else q1
  }

  /** NN_PIPE_IN and NN_PIPE_OUT are raised where the state leaves ASYNC for IDLE, and nowhere else once
      the pipe is started (core/pipe.c). */
  predicate RaisesIn(x: Session, x': Session) { x.instate == Async && x'.instate == Idle }
  predicate RaisesOut(x: Session, x': Session) { x.outstate == Async && x'.outstate == Idle }
  predicate Leaves(x: Session, x': Session) { x.attached && !x'.attached }

  // ---------------------------------------------------------------- steps

  /** Attach: nn_pipebase_start, which adds the pipe and raises NN_PIPE_OUT.  Receive and Transmit:
      nn_xreq_recv and nn_xreq_send.  Own: an event or a stop at a session of this socket.  Peer: anything
      that happens at the other side of a connection. */
  datatype Step =
    | Attach(p: Pipe, own: Owner, maxmem: nat, other: Owner, othermem: nat, sndprio: int, rcvprio: int)
    | Receive
    | Transmit(m: Message)
    | Own(p: Pipe, action: Action)
    | Peer(p: Pipe, action: Action)

  predicate Enabled(s: Socket, t: Step) {
    match t
    case Attach(p, _, _, _, _, snd, rcv) => p !in s.conns && 1 <= snd <= P.SLOTS && 1 <= rcv <= P.SLOTS
    case Receive => true
    case Transmit(_) => true
    case Own(p, a) => p in s.conns && (a.Process? || a.UserStop?) && Inproc.Enabled(s.conns[p].own, a)
    case Peer(p, a) => p in s.conns && Inproc.Enabled(s.conns[p].peer, a)
  }

  function With(s: Socket, p: Pipe, c: Conn, fq: Option<P.Prio<Pipe>>, lb: Option<P.Prio<Pipe>>): Result {
    if fq.Some? && lb.Some? then Next(Socket(s.conns[p := c], fq.value, lb.value)) else Failed
  }

  /** nn_fq_recv. */
  function ReceiveFrom(s: Socket, p: Pipe): Result
    requires p in s.conns
  {
    var c := s.conns[p];
    var r := Recv(c.own, c.peer);
    if r.Abort? then Failed
    else With(s, p, c.(own := r.self, peer := r.peer), Do(s.fq, P.Advance(r.self.instate == Async)), Some(s.lb))
  }

  /** nn_lb_send. */
  function SendTo(s: Socket, p: Pipe, m: Message): Result
    requires p in s.conns
  {
    var c := s.conns[p];
    var r := Send(c.own, c.peer, m);
    if r.Abort? then Failed
    else With(s, p, c.(own := r.self, peer := r.peer), Some(s.fq), Do(s.lb, P.Advance(r.self.outstate == Async)))
  }

  function AtOwn(s: Socket, p: Pipe, a: Action): Result
    requires p in s.conns && Inproc.Enabled(s.conns[p].own, a)
  {
    var c := s.conns[p];
    var r := Act(c.own, c.peer, a);
    if r.Abort? then Failed
    else
      With(s, p, c.(own := r.self, peer := r.peer),
           Inform(s.fq, p, c.rcvprio, RaisesIn(c.own, r.self), Leaves(c.own, r.self)),
           Inform(s.lb, p, c.sndprio, RaisesOut(c.own, r.self), Leaves(c.own, r.self)))
  }

  function AtPeer(s: Socket, p: Pipe, a: Action): Result
    requires p in s.conns && Inproc.Enabled(s.conns[p].peer, a)
  {
    var c := s.conns[p];
    var r := Act(c.peer, c.own, a);
    if r.Abort? then Failed
    else
      With(s, p, c.(own := r.peer, peer := r.self),
           Inform(s.fq, p, c.rcvprio, RaisesIn(c.own, r.peer), Leaves(c.own, r.peer)),
           Inform(s.lb, p, c.sndprio, RaisesOut(c.own, r.peer), Leaves(c.own, r.peer)))
  }

  function Perform(s: Socket, t: Step): Result
    requires Enabled(s, t)
  {
    match t
    case Attach(p, own, mem, other, othermem, snd, rcv) =>
      With(s, p, Conn(Fresh(own, mem), Fresh(other, othermem), snd, rcv),
           Some(s.fq), Inform(s.lb, p, snd, true, false))
    case Receive =>
      var h := Head(s.fq);
      if h.None? then Again else if h.value !in s.conns then Failed else ReceiveFrom(s, h.value)
    case Transmit(m) =>
      var h := Head(s.lb);
      if h.None? then Again else if h.value !in s.conns then Failed else SendTo(s, h.value, m)
    case Own(p, a) => AtOwn(s, p, a)
    case Peer(p, a) => AtPeer(s, p, a)
  }

  // ---------------------------------------------------------------- what a list shows

  /** The pipe is in the list that a slot holds. */
  predicate In(q: P.Prio<Pipe>, i: int, p: Pipe)
    requires |q.slots| == P.SLOTS && 1 <= i <= P.SLOTS
  {
    p in q.slots[i - 1].Ring()
  }

  /** The list holds exactly the pipes of the set, each in the slot of its priority. */
  ghost predicate Lists(q: P.Prio<Pipe>, prio: map<Pipe, int>, listed: set<Pipe>) {
    (&& P.Inv(q) && listed <= prio.Keys
     && (forall p :: p in listed ==> 1 <= prio[p] <= P.SLOTS)
     && (forall i, p :: 1 <= i <= P.SLOTS ==> (In(q, i, p) <==> p in listed && prio[p] == i))) == true
  }

  lemma ListNone()
    ensures Lists(P.Start(), map[], {})
  {
    P.StartInv<Pipe>();
  }

  /** More pipes are known, or fewer: the list does not change. */
  lemma ListGrows(q: P.Prio<Pipe>, prio: map<Pipe, int>, listed: set<Pipe>, p: Pipe, i: int)
    requires Lists(q, prio, listed) && p !in listed
    ensures Lists(q, prio[p := i], listed)
  {
  }

  lemma ActivateIn(q: P.Prio<Pipe>, p: Pipe, i: int, j: int)
    requires P.Inv(q) && P.Fits(q, P.Activate(p, i)) && 1 <= j <= P.SLOTS
    ensures var q' := P.Apply(q, P.Activate(p, i));
            P.Inv(q') && forall r :: In(q', j, r) <==> In(q, j, r) || (r == p && i == j)
  {
    P.ApplyKeeps(q, P.Activate(p, i));
    P.ApplySlot(q, P.Activate(p, i), j);
    P.AddRing(q.slots[i - 1], p);
  }

  lemma ListActivate(q: P.Prio<Pipe>, prio: map<Pipe, int>, listed: set<Pipe>, p: Pipe)
    requires Lists(q, prio, listed) && p in prio && 1 <= prio[p] <= P.SLOTS && p !in listed
    ensures var op := P.Activate(p, prio[p]); Can(q, op) && Lists(P.Apply(q, op), prio, listed + {p})
  {
    forall j | 0 <= j < P.SLOTS ensures p !in q.slots[j].Pipes() {
      assert !In(q, j + 1, p);
    }
    ActivateIn(q, p, prio[p], 1);
    var q' := P.Apply(q, P.Activate(p, prio[p]));
    forall j, r | 1 <= j <= P.SLOTS ensures In(q', j, r) <==> In(q, j, r) || (r == p && prio[p] == j) {
      ActivateIn(q, p, prio[p], j);
    }
  }

  lemma RemoveIn(q: P.Prio<Pipe>, p: Pipe, i: int, j: int)
    requires P.Inv(q) && 1 <= i <= P.SLOTS && 1 <= j <= P.SLOTS
    ensures var q' := P.Apply(q, P.Remove(p, i));
            P.Inv(q') && forall r :: In(q', j, r) <==> In(q, j, r) && !(r == p && i == j)
  {
    P.ApplyKeeps(q, P.Remove(p, i));
    P.ApplySlot(q, P.Remove(p, i), j);
    P.RemoveRing(q.slots[i - 1], p);
    P.EraseDistinct(q.slots[i - 1].Ring(), p);
  }

  lemma ListRemove(q: P.Prio<Pipe>, prio: map<Pipe, int>, listed: set<Pipe>, p: Pipe)
    requires Lists(q, prio, listed) && p in prio && 1 <= prio[p] <= P.SLOTS
    ensures var op := P.Remove(p, prio[p]); Can(q, op) && Lists(P.Apply(q, op), prio, listed - {p})
  {
    RemoveIn(q, p, prio[p], 1);
    var q' := P.Apply(q, P.Remove(p, prio[p]));
    forall j, r | 1 <= j <= P.SLOTS ensures In(q', j, r) <==> In(q, j, r) && !(r == p && prio[p] == j) {
      RemoveIn(q, p, prio[p], j);
    }
  }

  /** The list is empty exactly when no pipe is listed; otherwise its head is a listed pipe, and none of a
      better priority is listed. */
  lemma ListHead(q: P.Prio<Pipe>, prio: map<Pipe, int>, listed: set<Pipe>)
    requires Lists(q, prio, listed)
    ensures q.current == -1 <==> listed == {}
    ensures Head(q).None? <==> listed == {}
    ensures Head(q).Some? ==>
              var p := Head(q).value;
              p in listed && prio[p] == q.current && forall r :: r in listed ==> prio[p] <= prio[r]
  {
    if q.current != -1 {
      assert In(q, q.current, q.slots[q.current - 1].after[0]);
    }
    forall r | r in listed ensures q.current != -1 && q.current <= prio[r] {
      assert In(q, prio[r], r);
    }
  }

  lemma AdvanceIn(q: P.Prio<Pipe>, release: bool, j: int)
    requires P.Inv(q) && q.current != -1 && 1 <= j <= P.SLOTS
    ensures var q', p := P.Apply(q, P.Advance(release)), q.slots[q.current - 1].after[0];
            P.Inv(q') && forall r :: In(q', j, r) <==> In(q, j, r) && !(release && r == p && q.current == j)
  {
    P.ApplyKeeps(q, P.Advance(release));
    P.ApplySlot(q, P.Advance(release), j);
    AdvanceHolds(q.slots[q.current - 1], release);
  }

  lemma ListAdvance(q: P.Prio<Pipe>, prio: map<Pipe, int>, listed: set<Pipe>, release: bool)
    requires Lists(q, prio, listed) && Head(q).Some?
    ensures var op := P.Advance(release);
            Can(q, op) && Lists(P.Apply(q, op), prio, if release then listed - {Head(q).value} else listed)
  {
    var p := Head(q).value;
    ListHead(q, prio, listed);
    AdvanceIn(q, release, 1);
    var q' := P.Apply(q, P.Advance(release));
    forall j, r | 1 <= j <= P.SLOTS
      ensures In(q', j, r) <==> In(q, j, r) && !(release && r == p && q.current == j)
    {
      AdvanceIn(q, release, j);
    }
  }

  lemma AdvanceHolds(s: P.Slot<Pipe>, release: bool)
    requires P.SlotOk(s) && !s.Empty()
    ensures forall r :: r in P.SlotAdvance(s, release).Ring() <==> r in s.Ring() && !(release && r == s.after[0])
  {
    var ring := s.Ring();
    P.AdvanceRing(s, release);
    assert ring == [ring[0]] + ring[1..];
    assert multiset(ring)[ring[0]] == 1;
    assert ring[0] !in multiset(ring[1..]);
  }

  // ---------------------------------------------------------------- what a session tells the socket

  predicate CanRead(x: Session) { x.attached && x.queue != [] }
  predicate CanWrite(x: Session) { x.attached && !x.sending }

  /** Events and stops never take a message out of the queue, never start a send, never attach a pipe
      again, and leave the state of a pipe alone that is not attached. */
  predicate Frame(x: Session, x': Session) {
    && (x'.attached ==> x.attached) && |x'.queue| >= |x.queue| && (x'.sending ==> x.sending)
    && (!x'.attached ==> x'.instate == x.instate && x'.outstate == x.outstate)
  }

  lemma StopFrame(x: Session, y: Session)
    requires Stop(x, y).Ok? && (x.attached <==> x.state == Active)
    ensures Frame(x, Stop(x, y).self)
  {
  }

  lemma ActiveFrame(x: Session, y: Session, e: Event)
    requires HandleActive(x, y, e).Ok? && x.attached
    ensures Frame(x, HandleActive(x, y, e).self)
  {
  }

  lemma DeliverFrame(x: Session, y: Session)
    requires x.inbox != [] && Deliver(x, y).Ok? && (x.attached <==> x.state == Active)
    ensures Frame(x, Deliver(x, y).self)
  {
    if x.state == Active {
      ActiveFrame(x.(inbox := x.inbox[1..]), y, x.inbox[0]);
    }
  }

  /** Which pipes a critical section of their session makes ready, and which it takes away. */
  predicate Reports(x: Session, x': Session) {
    && (Leaves(x, x') ==> !RaisesIn(x, x') && !RaisesOut(x, x'))
    && (RaisesIn(x, x') ==> !CanRead(x)) && (RaisesOut(x, x') ==> !CanWrite(x))
    && (CanRead(x') <==> (CanRead(x) || RaisesIn(x, x')) && !Leaves(x, x'))
    && (CanWrite(x') <==> (CanWrite(x) || RaisesOut(x, x')) && !Leaves(x, x'))
  }

  lemma FrameReports(x: Session, x': Session)
    requires T.PipeOk(x) && T.PipeOk(x') && Frame(x, x')
    ensures Reports(x, x')
  {
  }

  lemma OwnReports(x: Session, y: Session, a: Action)
    requires T.Inv(x, y) && Inproc.Enabled(x, a) && (a.Process? || a.UserStop?)
    ensures var r := Act(x, y, a); r.Ok? && T.Inv(r.self, r.peer) && Reports(x, r.self)
  {
    T.ActKeeps(x, y, a);
    if a.Process? { DeliverFrame(x, y); } else { StopFrame(x, y); }
    FrameReports(x, Act(x, y, a).self);
  }

  /** The peer reaches no more of a session than its inbox and the message it exposes. */
  predicate Outside(y: Session, y': Session) { y' == y.(inbox := y'.inbox, msg := y'.msg) }

  lemma LetInOutside(x: Session, y: Session)
    requires LetIn(x, y).Ok?
    ensures Outside(y, LetIn(x, y).peer)
  {
  }

  lemma TakeOutside(x: Session, y: Session)
    requires Take(x, y).Ok?
    ensures Outside(y, Take(x, y).peer)
  {
    var x1 := x.(queue := x.queue[1..], taken := x.taken + [x.queue[0]]);
    if x1.state != Disconnected { LetInOutside(x1, y); }
  }

  lemma RecvOutside(x: Session, y: Session)
    requires Recv(x, y).Ok?
    ensures Outside(y, Recv(x, y).peer)
  {
    TakeOutside(x.(instate := Busy), y);
  }

  lemma ShutdownOutside(x: Session, y: Session, e: Event)
    requires HandleShutdown(x, y, e).Ok?
    ensures HandleShutdown(x, y, e).peer == y
  {
  }

  lemma DeliverOutside(x: Session, y: Session)
    requires x.inbox != [] && Deliver(x, y).Ok?
    ensures Outside(y, Deliver(x, y).peer)
  {
    if x.state == Active {
      ActiveOutside(x.(inbox := x.inbox[1..]), y, x.inbox[0]);
    } else if x.state != Disconnected {
      ShutdownOutside(x.(inbox := x.inbox[1..]), y, x.inbox[0]);
    }
  }

  lemma StopOutside(x: Session, y: Session)
    requires Stop(x, y).Ok?
    ensures Outside(y, Stop(x, y).peer)
  {
  }

  lemma PartedOutside(x: Session, y: Session)
    requires HandleActive(x, y, Disconnect).Ok?
    ensures Outside(y, HandleActive(x, y, Disconnect).peer)
  {
    if x.owner == Binproc { StopOutside(PipeStop(x).(state := Disconnected), Raise(y, Disconnect)); }
  }

  lemma ActiveOutside(x: Session, y: Session, e: Event)
    requires HandleActive(x, y, e).Ok?
    ensures Outside(y, HandleActive(x, y, e).peer)
  {
    match e
    case Sent =>
    case Received =>
    case Disconnect => PartedOutside(x, y);
  }

  lemma PeerOutside(x: Session, y: Session, a: Action)
    requires Inproc.Enabled(x, a) && Act(x, y, a).Ok?
    ensures Outside(y, Act(x, y, a).peer)
  {
    match a
    case UserRecv => RecvOutside(x, y);
    case Process => DeliverOutside(x, y);
    case UserSend(_) =>
    case UserStop => StopOutside(x, y);
  }

  lemma PeerReports(x: Session, y: Session, a: Action)
    requires T.Inv(x, y) && Inproc.Enabled(y, a)
    ensures var r := Act(y, x, a);
            && r.Ok? && T.Inv(r.peer, r.self) && !RaisesIn(x, r.peer) && !RaisesOut(x, r.peer) && !Leaves(x, r.peer)
            && CanRead(r.peer) == CanRead(x) && CanWrite(r.peer) == CanWrite(x)
  {
    T.ActKeeps(y, x, a);
    PeerOutside(y, x, a);
  }

  lemma ReceiveReports(x: Session, y: Session)
    requires T.Inv(x, y) && CanRead(x)
    ensures var r := Recv(x, y);
            && r.Ok? && T.Inv(r.self, r.peer) && r.self.attached
            && (CanRead(r.self) <==> r.self.instate != Async) && CanWrite(r.self) == CanWrite(x)
            && r.self.taken == x.taken + [x.queue[0]]
  {
    T.RecvKeeps(x, y);
    T.RecvMoves(x, y);
  }

  lemma SendReports(x: Session, y: Session, m: Message)
    requires T.Inv(x, y) && CanWrite(x)
    ensures var r := Send(x, y, m);
            && r.Ok? && T.Inv(r.self, r.peer) && r.self.outstate == Async && r.self.handed == x.handed + [m]
            && !CanWrite(r.self) && CanRead(r.self) == CanRead(x)
  {
    T.SendKeeps(x, y, m);
  }

  // ---------------------------------------------------------------- the invariant

  function RcvPrio(s: Socket): map<Pipe, int> { map p | p in s.conns :: s.conns[p].rcvprio }
  function SndPrio(s: Socket): map<Pipe, int> { map p | p in s.conns :: s.conns[p].sndprio }
  function Readable(s: Socket): set<Pipe> { set p | p in s.conns && CanRead(s.conns[p].own) }
  function Writable(s: Socket): set<Pipe> { set p | p in s.conns && CanWrite(s.conns[p].own) }

  predicate ConnOk(c: Conn) {
    (T.Inv(c.own, c.peer) && 1 <= c.sndprio <= P.SLOTS && 1 <= c.rcvprio <= P.SLOTS) == true
  }

  /** Every connection is in order; the fair queue lists exactly the attached pipes that have a message, and
      the load balancer exactly the attached pipes without a message on its way. */
  ghost predicate Inv(s: Socket) {
    && (forall p :: p in s.conns ==> ConnOk(s.conns[p]))
    && Lists(s.fq, RcvPrio(s), Readable(s))
    && Lists(s.lb, SndPrio(s), Writable(s))
  }

  lemma ChangedRead(s: Socket, p: Pipe, c: Conn, fq: P.Prio<Pipe>, lb: P.Prio<Pipe>)
    requires p in s.conns && c.rcvprio == s.conns[p].rcvprio
    ensures var s' := Socket(s.conns[p := c], fq, lb);
            && RcvPrio(s') == RcvPrio(s)
            && Readable(s') == if CanRead(c.own) then Readable(s) + {p} else Readable(s) - {p}
  {
  }

  lemma ChangedWrite(s: Socket, p: Pipe, c: Conn, fq: P.Prio<Pipe>, lb: P.Prio<Pipe>)
    requires p in s.conns && c.sndprio == s.conns[p].sndprio
    ensures var s' := Socket(s.conns[p := c], fq, lb);
            && SndPrio(s') == SndPrio(s)
            && Writable(s') == if CanWrite(c.own) then Writable(s) + {p} else Writable(s) - {p}
  {
  }

  /** One pipe of the socket has changed: what its lists are to show. */
  lemma Changed(s: Socket, p: Pipe, c: Conn, fq: P.Prio<Pipe>, lb: P.Prio<Pipe>)
    requires Inv(s) && p in s.conns && ConnOk(c)
    requires c.rcvprio == s.conns[p].rcvprio && c.sndprio == s.conns[p].sndprio
    requires Lists(fq, RcvPrio(s), if CanRead(c.own) then Readable(s) + {p} else Readable(s) - {p})
    requires Lists(lb, SndPrio(s), if CanWrite(c.own) then Writable(s) + {p} else Writable(s) - {p})
    ensures Inv(Socket(s.conns[p := c], fq, lb))
  {
    ChangedRead(s, p, c, fq, lb);
    ChangedWrite(s, p, c, fq, lb);
  }

  /** What a critical section of a pipe does to a list. */
  lemma ListInforms(q: P.Prio<Pipe>, prio: map<Pipe, int>, listed: set<Pipe>, p: Pipe, ready: bool, gone: bool)
    requires Lists(q, prio, listed) && p in prio && 1 <= prio[p] <= P.SLOTS && (ready ==> p !in listed && !gone)
    ensures var q', on := Inform(q, p, prio[p], ready, gone), (p in listed || ready) && !gone;
            q'.Some? && Lists(q'.value, prio, if on then listed + {p} else listed - {p})
  {
    if ready { ListActivate(q, prio, listed, p); }
    else if gone { ListRemove(q, prio, listed, p); }
    else { assert listed == if p in listed then listed + {p} else listed - {p}; }
  }

  // ---------------------------------------------------------------- one step

  lemma InformsRead(s: Socket, p: Pipe, x: Session)
    requires p in s.conns && ConnOk(s.conns[p]) && Reports(s.conns[p].own, x)
    requires Lists(s.fq, RcvPrio(s), Readable(s))
    ensures var c := s.conns[p];
            var q := Inform(s.fq, p, c.rcvprio, RaisesIn(c.own, x), Leaves(c.own, x));
            q.Some? && Lists(q.value, RcvPrio(s), if CanRead(x) then Readable(s) + {p} else Readable(s) - {p})
  {
    var c := s.conns[p];
    ListInforms(s.fq, RcvPrio(s), Readable(s), p, RaisesIn(c.own, x), Leaves(c.own, x));
  }

  lemma InformsWrite(s: Socket, p: Pipe, x: Session)
    requires p in s.conns && ConnOk(s.conns[p]) && Reports(s.conns[p].own, x)
    requires Lists(s.lb, SndPrio(s), Writable(s))
    ensures var c := s.conns[p];
            var q := Inform(s.lb, p, c.sndprio, RaisesOut(c.own, x), Leaves(c.own, x));
            q.Some? && Lists(q.value, SndPrio(s), if CanWrite(x) then Writable(s) + {p} else Writable(s) - {p})
  {
    var c := s.conns[p];
    ListInforms(s.lb, SndPrio(s), Writable(s), p, RaisesOut(c.own, x), Leaves(c.own, x));
  }

  lemma AtOwnKeeps(s: Socket, p: Pipe, a: Action)
    requires Inv(s) && Enabled(s, Own(p, a))
    ensures AtOwn(s, p, a).Next? && Inv(AtOwn(s, p, a).socket)
  {
    var c := s.conns[p];
    var r := Act(c.own, c.peer, a);
    assert ConnOk(c);
    OwnReports(c.own, c.peer, a);
    InformsRead(s, p, r.self);
    InformsWrite(s, p, r.self);
    var fq, lb := AtOwnIs(s, p, a);
    Changed(s, p, c.(own := r.self, peer := r.peer), fq, lb);
  }

  lemma AtOwnIs(s: Socket, p: Pipe, a: Action) returns (fq: P.Prio<Pipe>, lb: P.Prio<Pipe>)
    requires Enabled(s, Own(p, a)) && Act(s.conns[p].own, s.conns[p].peer, a).Ok?
    requires var c, x := s.conns[p], Act(s.conns[p].own, s.conns[p].peer, a).self;
             && Inform(s.fq, p, c.rcvprio, RaisesIn(c.own, x), Leaves(c.own, x)).Some?
             && Inform(s.lb, p, c.sndprio, RaisesOut(c.own, x), Leaves(c.own, x)).Some?
    ensures var c, r := s.conns[p], Act(s.conns[p].own, s.conns[p].peer, a);
            && Some(fq) == Inform(s.fq, p, c.rcvprio, RaisesIn(c.own, r.self), Leaves(c.own, r.self))
            && Some(lb) == Inform(s.lb, p, c.sndprio, RaisesOut(c.own, r.self), Leaves(c.own, r.self))
            && AtOwn(s, p, a) == Next(Socket(s.conns[p := c.(own := r.self, peer := r.peer)], fq, lb))
  {
    var c, x := s.conns[p], Act(s.conns[p].own, s.conns[p].peer, a).self;
    fq := Inform(s.fq, p, c.rcvprio, RaisesIn(c.own, x), Leaves(c.own, x)).value;
    lb := Inform(s.lb, p, c.sndprio, RaisesOut(c.own, x), Leaves(c.own, x)).value;
  }

  lemma AtPeerIs(s: Socket, p: Pipe, a: Action)
    requires Enabled(s, Peer(p, a)) && T.Inv(s.conns[p].own, s.conns[p].peer)
    ensures var c := s.conns[p];
            var r := Act(c.peer, c.own, a);
            r.Ok? && AtPeer(s, p, a) == Next(Socket(s.conns[p := c.(own := r.peer, peer := r.self)], s.fq, s.lb))
  {
    PeerReports(s.conns[p].own, s.conns[p].peer, a);
  }

  lemma AtPeerKeeps(s: Socket, p: Pipe, a: Action)
    requires Inv(s) && Enabled(s, Peer(p, a))
    ensures AtPeer(s, p, a).Next? && Inv(AtPeer(s, p, a).socket)
  {
    var c := s.conns[p];
    var r := Act(c.peer, c.own, a);
    assert ConnOk(c);
    AtPeerIs(s, p, a);
    PeerReports(c.own, c.peer, a);
    Same(Readable(s), p);
    Same(Writable(s), p);
    Changed(s, p, c.(own := r.peer, peer := r.self), s.fq, s.lb);
  }

  lemma Same(listed: set<Pipe>, p: Pipe)
    ensures listed == if p in listed then listed + {p} else listed - {p}
  {
  }

  lemma AdvanceRead(s: Socket, p: Pipe, x: Session)
    requires Lists(s.fq, RcvPrio(s), Readable(s)) && Head(s.fq) == Some(p) && p in Readable(s)
    requires CanRead(x) <==> x.instate != Async
    ensures var q := Do(s.fq, P.Advance(x.instate == Async));
            q.Some? && Lists(q.value, RcvPrio(s), if CanRead(x) then Readable(s) + {p} else Readable(s) - {p})
  {
    ListAdvance(s.fq, RcvPrio(s), Readable(s), x.instate == Async);
    Same(Readable(s), p);
  }

  lemma AdvanceWrite(s: Socket, p: Pipe, x: Session)
    requires Lists(s.lb, SndPrio(s), Writable(s)) && Head(s.lb) == Some(p) && p in Writable(s)
    requires x.outstate == Async && !CanWrite(x)
    ensures var q := Do(s.lb, P.Advance(x.outstate == Async));
            q.Some? && Lists(q.value, SndPrio(s), if CanWrite(x) then Writable(s) + {p} else Writable(s) - {p})
  {
    ListAdvance(s.lb, SndPrio(s), Writable(s), true);
  }

  lemma ReceiveFromIs(s: Socket, p: Pipe, c: Conn, q: Option<P.Prio<Pipe>>)
    requires p in s.conns && Recv(s.conns[p].own, s.conns[p].peer).Ok?
    requires var r := Recv(s.conns[p].own, s.conns[p].peer);
             && c == s.conns[p].(own := r.self, peer := r.peer)
             && q == Do(s.fq, P.Advance(r.self.instate == Async)) && q.Some?
    ensures ReceiveFrom(s, p) == Next(Socket(s.conns[p := c], q.value, s.lb))
  {
  }

  lemma ReceiveFromKeeps(s: Socket, p: Pipe)
    requires Inv(s) && Head(s.fq) == Some(p) && p in Readable(s)
    ensures var r := ReceiveFrom(s, p); r.Next? && Inv(r.socket)
  {
    assert ConnOk(s.conns[p]);
    ReceiveReports(s.conns[p].own, s.conns[p].peer);
    var r := Recv(s.conns[p].own, s.conns[p].peer);
    var c, q := s.conns[p].(own := r.self, peer := r.peer), Do(s.fq, P.Advance(r.self.instate == Async));
    AdvanceRead(s, p, r.self);
    Same(Writable(s), p);
    Changed(s, p, c, q.value, s.lb);
    ReceiveFromIs(s, p, c, q);
  }

  lemma SendToIs(s: Socket, p: Pipe, m: Message, c: Conn, q: Option<P.Prio<Pipe>>)
    requires p in s.conns && Send(s.conns[p].own, s.conns[p].peer, m).Ok?
    requires var r := Send(s.conns[p].own, s.conns[p].peer, m);
             && c == s.conns[p].(own := r.self, peer := r.peer)
             && q == Do(s.lb, P.Advance(r.self.outstate == Async)) && q.Some?
    ensures SendTo(s, p, m) == Next(Socket(s.conns[p := c], s.fq, q.value))
  {
  }

  lemma SendToKeeps(s: Socket, p: Pipe, m: Message)
    requires Inv(s) && Head(s.lb) == Some(p) && p in Writable(s)
    ensures var r := SendTo(s, p, m); r.Next? && Inv(r.socket)
  {
    assert ConnOk(s.conns[p]);
    SendReports(s.conns[p].own, s.conns[p].peer, m);
    var r := Send(s.conns[p].own, s.conns[p].peer, m);
    var c, q := s.conns[p].(own := r.self, peer := r.peer), Do(s.lb, P.Advance(r.self.outstate == Async));
    AdvanceWrite(s, p, r.self);
    Same(Readable(s), p);
    Changed(s, p, c, s.fq, q.value);
    SendToIs(s, p, m, c, q);
  }

  /** Who is served: a pipe that is ready, and none that is ready has a better priority. */
  predicate Best(p: Pipe, prio: map<Pipe, int>, ready: set<Pipe>) {
    p in ready && ready <= prio.Keys && forall q :: q in ready ==> prio[p] <= prio[q]
  }

  lemma HeadIsBest(q: P.Prio<Pipe>, prio: map<Pipe, int>, ready: set<Pipe>)
    requires Lists(q, prio, ready)
    ensures Head(q).Some? <==> ready != {}
    ensures Head(q).Some? ==> Best(Head(q).value, prio, ready)
  {
    ListHead(q, prio, ready);
  }

  /** Only pipe p of the socket has changed. */
  predicate Only(s: Socket, s': Socket, p: Pipe) {
    p in s'.conns && p in s.conns && s'.conns == s.conns[p := s'.conns[p]]
  }

  lemma Received1(s: Socket, p: Pipe)
    requires p in s.conns && ConnOk(s.conns[p]) && CanRead(s.conns[p].own) && ReceiveFrom(s, p).Next?
    ensures var s' := ReceiveFrom(s, p).socket;
            Only(s, s', p) && s'.conns[p].own.taken == s.conns[p].own.taken + [s.conns[p].own.queue[0]]
  {
    ReceiveReports(s.conns[p].own, s.conns[p].peer);
  }

  lemma Sent1(s: Socket, p: Pipe, m: Message)
    requires p in s.conns && ConnOk(s.conns[p]) && CanWrite(s.conns[p].own) && SendTo(s, p, m).Next?
    ensures var s' := SendTo(s, p, m).socket;
            Only(s, s', p) && s'.conns[p].own.handed == s.conns[p].own.handed + [m]
  {
    SendReports(s.conns[p].own, s.conns[p].peer, m);
  }

  /** nn_fq_recv takes the first message of a pipe that has one, and no pipe of a better priority has one. */
  lemma ReceiveKeeps(s: Socket) returns (p: Pipe)
    requires Inv(s) && Readable(s) != {}
    ensures Best(p, RcvPrio(s), Readable(s)) && Perform(s, Receive) == ReceiveFrom(s, p)
    ensures var r := ReceiveFrom(s, p);
            && r.Next? && Inv(r.socket) && Only(s, r.socket, p)
            && r.socket.conns[p].own.taken == s.conns[p].own.taken + [s.conns[p].own.queue[0]]
  {
    HeadIsBest(s.fq, RcvPrio(s), Readable(s));
    p := Head(s.fq).value;
    ReceiveFromKeeps(s, p);
    Received1(s, p);
  }

  /** nn_lb_send hands the message to a pipe that can take one, and no pipe of a better priority can. */
  lemma TransmitKeeps(s: Socket, m: Message) returns (p: Pipe)
    requires Inv(s) && Writable(s) != {}
    ensures Best(p, SndPrio(s), Writable(s)) && Perform(s, Transmit(m)) == SendTo(s, p, m)
    ensures var r := SendTo(s, p, m);
            && r.Next? && Inv(r.socket) && Only(s, r.socket, p)
            && r.socket.conns[p].own.handed == s.conns[p].own.handed + [m]
  {
    HeadIsBest(s.lb, SndPrio(s), Writable(s));
    p := Head(s.lb).value;
    SendToKeeps(s, p, m);
    Sent1(s, p, m);
  }

  /** A pipe has been attached: what the lists are to show. */
  lemma Attached(s: Socket, p: Pipe, c: Conn, lb: P.Prio<Pipe>)
    requires Inv(s) && p !in s.conns && ConnOk(c) && !CanRead(c.own) && CanWrite(c.own)
    requires Lists(s.fq, RcvPrio(s)[p := c.rcvprio], Readable(s))
    requires Lists(lb, SndPrio(s)[p := c.sndprio], Writable(s) + {p})
    ensures Inv(Socket(s.conns[p := c], s.fq, lb))
  {
    AttachedRead(s, p, c, lb);
    AttachedWrite(s, p, c, lb);
  }

  lemma AttachedRead(s: Socket, p: Pipe, c: Conn, lb: P.Prio<Pipe>)
    requires p !in s.conns && !CanRead(c.own)
    ensures var s' := Socket(s.conns[p := c], s.fq, lb);
            RcvPrio(s') == RcvPrio(s)[p := c.rcvprio] && Readable(s') == Readable(s)
  {
  }

  lemma AttachedWrite(s: Socket, p: Pipe, c: Conn, lb: P.Prio<Pipe>)
    requires p !in s.conns && CanWrite(c.own)
    ensures var s' := Socket(s.conns[p := c], s.fq, lb);
            SndPrio(s') == SndPrio(s)[p := c.sndprio] && Writable(s') == Writable(s) + {p}
  {
  }

  lemma AttachKeeps(s: Socket, t: Step)
    requires Inv(s) && t.Attach? && Enabled(s, t)
    ensures Perform(s, t).Next? && Inv(Perform(s, t).socket)
  {
    var p, c := t.p, Conn(Fresh(t.own, t.maxmem), Fresh(t.other, t.othermem), t.sndprio, t.rcvprio);
    T.FreshInv(T.Pair(c.own, c.peer));
    ListGrows(s.fq, RcvPrio(s), Readable(s), p, t.rcvprio);
    ListGrows(s.lb, SndPrio(s), Writable(s), p, t.sndprio);
    ListActivate(s.lb, SndPrio(s)[p := t.sndprio], Writable(s), p);
    Attached(s, p, c, Perform(s, t).socket.lb);
  }

  /** Whatever happens next, no assertion fails, in a session or in a list: a pipe is activated only when it
      is not in the list, and advanced only when the list has a current one.  And the lists show again
      exactly the pipes that are ready. */
  lemma StepKeeps(s: Socket, t: Step)
    requires Inv(s) && Enabled(s, t)
    ensures !Perform(s, t).Failed?
    ensures Perform(s, t).Again? <==> (t.Receive? && Readable(s) == {}) || (t.Transmit? && Writable(s) == {})
    ensures Perform(s, t).Next? ==> Inv(Perform(s, t).socket)
  {
    ListHead(s.fq, RcvPrio(s), Readable(s));
    ListHead(s.lb, SndPrio(s), Writable(s));
    match t
    case Attach(_, _, _, _, _, _, _) => AttachKeeps(s, t);
    case Receive => if Readable(s) != {} { var _ := ReceiveKeeps(s); }
    case Transmit(m) => if Writable(s) != {} { var _ := TransmitKeeps(s, m); }
    case Own(p, a) => AtOwnKeeps(s, p, a);
    case Peer(p, a) => AtPeerKeeps(s, p, a);
  }

  // ---------------------------------------------------------------- runs

  /** ss is a run of a socket that starts without pipes; -EAGAIN leaves it as it is. */
  predicate Run(ss: seq<Socket>, steps: seq<Step>) {
    && |ss| == |steps| + 1 && ss[0] == NEW
    && forall i :: 0 <= i < |steps| ==>
         && Enabled(ss[i], steps[i]) && !Perform(ss[i], steps[i]).Failed?
         && ss[i + 1] == if Perform(ss[i], steps[i]).Again? then ss[i] else Perform(ss[i], steps[i]).socket
  }

  lemma NewInv()
    ensures Inv(NEW)
  {
    ListNone();
    assert RcvPrio(NEW) == map[] && SndPrio(NEW) == map[] && Readable(NEW) == {} && Writable(NEW) == {};
  }

  lemma {:induction false} RunKeeps(ss: seq<Socket>, steps: seq<Step>, i: nat)
    requires Run(ss, steps) && i < |ss|
    ensures Inv(ss[i])
  {
    if i == 0 {
      NewInv();
    } else {
      RunKeeps(ss, steps, i - 1);
      StepKeeps(ss[i - 1], steps[i - 1]);
    }
  }

  /** No run of a socket and its peers can be stopped by a failed assertion: neither nn_list_insert of a pipe
      that is already listed, nor nn_priolist_advance without a current pipe, nor any of the sessions'. */
  lemma NeverFails(ss: seq<Socket>, steps: seq<Step>, t: Step)
    requires Run(ss, steps) && Enabled(ss[|steps|], t)
    ensures !Perform(ss[|steps|], t).Failed?
  {
    RunKeeps(ss, steps, |steps|);
    StepKeeps(ss[|steps|], t);
  }

  /** No lost wake-up: a pipe is in the slot of its priority of the fair queue exactly when it is attached and
      a message is queued at it, and of the load balancer exactly when it is attached and none of its
      messages is on its way. */
  lemma ListedExactly(ss: seq<Socket>, steps: seq<Step>, i: nat, p: Pipe)
    requires Run(ss, steps) && i < |ss| && p in ss[i].conns
    ensures var s, c := ss[i], ss[i].conns[p];
            && |s.fq.slots| == |s.lb.slots| == P.SLOTS && 1 <= c.rcvprio <= P.SLOTS && 1 <= c.sndprio <= P.SLOTS
            && (In(s.fq, c.rcvprio, p) <==> c.own.attached && c.own.queue != [])
            && (In(s.lb, c.sndprio, p) <==> c.own.attached && !c.own.sending)
  {
    RunKeeps(ss, steps, i);
    assert ConnOk(ss[i].conns[p]);
    assert RcvPrio(ss[i])[p] == ss[i].conns[p].rcvprio && SndPrio(ss[i])[p] == ss[i].conns[p].sndprio;
  }

  /** nn_fq_can_recv and nn_lb_can_send tell the truth: the user is told that a receive, or a send, is possible
      exactly when some attached pipe has a message, or has none on its way. */
  lemma ReadyExactly(ss: seq<Socket>, steps: seq<Step>, i: nat)
    requires Run(ss, steps) && i < |ss|
    ensures ss[i].fq.current != -1 <==>
            exists p :: p in ss[i].conns && ss[i].conns[p].own.attached && ss[i].conns[p].own.queue != []
    ensures ss[i].lb.current != -1 <==>
            exists p :: p in ss[i].conns && ss[i].conns[p].own.attached && !ss[i].conns[p].own.sending
  {
    var s := ss[i];
    RunKeeps(ss, steps, i);
    ListHead(s.fq, RcvPrio(s), Readable(s));
    ListHead(s.lb, SndPrio(s), Writable(s));
    if s.fq.current != -1 { assert Head(s.fq).value in Readable(s); }
    if s.lb.current != -1 { assert Head(s.lb).value in Writable(s); }
    forall p | p in s.conns && CanRead(s.conns[p].own) ensures s.fq.current != -1 {
      assert p in Readable(s);
    }
    forall p | p in s.conns && CanWrite(s.conns[p].own) ensures s.lb.current != -1 {
      assert p in Writable(s);
    }
  }
}
