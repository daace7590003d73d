/** What every run of an inproc connection keeps: exactly-once, in-order delivery, no lost wake-up,
    no failed assertion, and a disconnect that is complete before a session reports STOPPED. */
module InprocTheory {
  import opened Inproc

  predicate NoDup(s: seq<Event>) {
    forall i, j :: 0 <= i < j < |s| ==> s[i] != s[j]
  }

  /** The session has processed the peer's DISCONNECT. */
  predicate Parted(x: Session) {
    x.state == Disconnected || x.state == Stopping || x.state == Stopped
  }

  /** The pipe of a session between two critical sections.  While it is attached, the socket can read
      from it exactly when a message is queued and write to it exactly when none is on its way. */
  predicate PipeOk(x: Session) {
    && (x.attached <==> x.state == Active)
    && (x.attached ==>
          && (x.readable <==> x.queue != [])
          && x.instate == (if x.queue != [] then Idle else Async)
          && (x.writable <==> !x.sending)
          && x.outstate == (if x.sending then Async else Idle)
          && (x.receiving ==> x.queue != []))
    && (!x.attached ==> !x.readable && !x.writable)
    && (x.state == Disconnected ==> x.owner == Cinproc)
  }

  /** The events that wait at x. */
  predicate InboxOk(x: Session, y: Session) {
    && NoDup(x.inbox)
    && (Disconnect in x.inbox ==> x.inbox[|x.inbox| - 1] == Disconnect)
    && (y.state != Active <==> Disconnect in x.inbox || Parted(x))
    && (Parted(x) ==> x.inbox == [])
    && x.state != Stopping
  }

  /** The message x has handed over is in exactly one place. */
  predicate FlowOk(x: Session, y: Session) {
    && (Sent in y.inbox ==> Received !in x.inbox)
    && (y.state == Active && y.receiving ==> Sent !in y.inbox && Received !in x.inbox)
    && (x.state == Active ==>
          (Sent in y.inbox || Received in x.inbox || (y.state == Active && y.receiving) ==> x.sending))
    && (x.state == Active && y.state == Active && x.sending ==>
          Sent in y.inbox || Received in x.inbox || y.receiving)
  }

  /** Messages on their way from x to y that are not yet in y's queue. */
  function Pending(x: Session, y: Session): seq<Message> {
    if Sent in y.inbox || y.receiving then [x.msg] else []
  }

  /** Exactly once and in order. */
  predicate DeliveryOk(x: Session, y: Session) {
    && (y.state == Active ==> x.handed == y.taken + y.queue + Pending(x, y))
    && y.taken <= x.handed
  }

  predicate Half(x: Session, y: Session) {
    PipeOk(x) && InboxOk(x, y) && FlowOk(x, y) && DeliveryOk(x, y)
  }

  predicate Inv(x: Session, y: Session) {
    Half(x, y) && Half(y, x)
  }

  // ---------------------------------------------------------------- one step

  lemma Popped(x: Session, y: Session)
    requires InboxOk(x, y) && x.inbox != []
    ensures var e, rest := x.inbox[0], x.inbox[1..];
            && NoDup(rest) && e !in rest
            && (forall f :: f in x.inbox <==> f == e || f in rest)
            && (e == Disconnect ==> rest == [])
            && (Disconnect in rest ==> rest[|rest| - 1] == Disconnect)
  {
    var e, rest := x.inbox[0], x.inbox[1..];
    assert x.inbox == [e] + rest;
    assert rest != [] ==> x.inbox[|x.inbox| - 1] == rest[|rest| - 1];
  }

  lemma SendKeeps(x: Session, y: Session, m: Message)
    requires Inv(x, y) && x.writable
    ensures Send(x, y, m).Ok? && Inv(Send(x, y, m).self, Send(x, y, m).peer)
  {
  }

  /** What a receive does: one message goes from the queue to the user, and one of the peer's may come
      in. */
  predicate Received1(x: Session, y: Session, x': Session, y': Session) {
    && x.queue != []
    && var moved := x.receiving && Accepts(x.queue[1..], y.msg, x.maxmem);
       && x'.taken == x.taken + [x.queue[0]]
       && x'.queue == x.queue[1..] + (if moved then [y.msg] else [])
       && x' == x.(queue := x'.queue, taken := x'.taken, receiving := x'.receiving,
                   instate := x'.instate, readable := x'.readable)
       && y' == (if moved then Raise(y.(msg := []), Received) else y)
       && x'.receiving == (x.receiving && !moved)
  }

  lemma RecvMoves(x: Session, y: Session)
    requires Inv(x, y) && x.readable
    ensures Recv(x, y).Ok?
    ensures Received1(x, y, Recv(x, y).self, Recv(x, y).peer) && PipeOk(Recv(x, y).self)
  {
    assert x.queue[1..] + [] == x.queue[1..];
  }

  lemma RecvSelf(x: Session, y: Session, x': Session, y': Session)
    requires Inv(x, y) && x.state == Active && Received1(x, y, x', y') && PipeOk(x')
    ensures Half(x', y')
  {
  }

  lemma RecvPeerAlone(x: Session, y: Session, x': Session)
    requires Inv(x, y) && x.state == Active && Received1(x, y, x', y) && PipeOk(x')
    requires x'.queue == x.queue[1..] && x'.receiving == x.receiving
    ensures Half(y, x')
  {
    assert x.queue == [x.queue[0]] + x.queue[1..];
    assert x'.taken + x'.queue + Pending(y, x') == x.taken + x.queue + Pending(y, x);
  }

  lemma RecvPeerMoved(x: Session, y: Session, x': Session)
    requires Inv(x, y) && x.state == Active && x.receiving && Received1(x, y, x', Raise(y.(msg := []), Received))
    requires x'.queue == x.queue[1..] + [y.msg] && !x'.receiving
    ensures Half(Raise(y.(msg := []), Received), x')
  {
    assert x.queue == [x.queue[0]] + x.queue[1..];
    assert x'.taken + x'.queue == x.taken + x.queue + Pending(y, x);
    assert Pending(Raise(y.(msg := []), Received), x') == [];
  }

  lemma RecvPeer(x: Session, y: Session, x': Session, y': Session)
    requires Inv(x, y) && x.state == Active && Received1(x, y, x', y') && PipeOk(x')
    ensures Half(y', x')
  {
    if x.receiving && Accepts(x.queue[1..], y.msg, x.maxmem) {
      RecvPeerMoved(x, y, x');
    } else {
      assert x.queue[1..] + [] == x.queue[1..];
      RecvPeerAlone(x, y, x');
    }
  }

  lemma RecvKeeps(x: Session, y: Session)
    requires Inv(x, y) && x.readable
    ensures Recv(x, y).Ok? && Inv(Recv(x, y).self, Recv(x, y).peer)
  {
    RecvMoves(x, y);
    RecvSelf(x, y, Recv(x, y).self, Recv(x, y).peer);
    RecvPeer(x, y, Recv(x, y).self, Recv(x, y).peer);
  }

  /** A stop that tells the peer. */
  lemma StopSelf(x: Session, y: Session)
    requires Inv(x, y) && x.state == Active
    ensures CanRaise(y, Disconnect) && Half(PipeStop(x).(state := StoppingPeer), Raise(y, Disconnect))
  {
  }

  lemma StopPeer(x: Session, y: Session)
    requires Inv(x, y) && x.state == Active
    ensures Half(Raise(y, Disconnect), PipeStop(x).(state := StoppingPeer))
  {
  }

  lemma StopKeeps(x: Session, y: Session)
    requires Inv(x, y)
    ensures Stop(x, y).Ok? && Inv(Stop(x, y).self, Stop(x, y).peer)
  {
    if x.state == Active {
      StopSelf(x, y);
      StopPeer(x, y);
    }
  }

  /** A message is let in, or has to wait for room. */
  lemma SentIs(x: Session, y: Session)
    requires Inv(x, y) && x.inbox != [] && x.inbox[0] == Sent && x.state == Active
    ensures var x1 := x.(inbox := x.inbox[1..]);
            Deliver(x, y) ==
            if Accepts(x.queue, y.msg, x.maxmem)
            then Ok(x1.(queue := x.queue + [y.msg], instate := Idle, readable := true), Raise(y.(msg := []), Received))
            else Ok(x1.(receiving := true), y)
  {
  }

  lemma SentIn(x: Session, y: Session)
    requires Inv(x, y) && x.inbox != [] && x.inbox[0] == Sent && x.state == Active
    ensures var x' := x.(inbox := x.inbox[1..], queue := x.queue + [y.msg], instate := Idle, readable := true);
            var y' := Raise(y.(msg := []), Received);
            Half(x', y') && Half(y', x')
  {
    Popped(x, y);
    var x' := x.(inbox := x.inbox[1..], queue := x.queue + [y.msg], instate := Idle, readable := true);
    var y' := Raise(y.(msg := []), Received);
    assert x'.taken + x'.queue + Pending(y', x') == x.taken + x.queue + Pending(y, x);
  }

  lemma SentWaits(x: Session, y: Session)
    requires Inv(x, y) && x.inbox != [] && x.inbox[0] == Sent && x.state == Active
    requires !Accepts(x.queue, y.msg, x.maxmem)
    ensures var x' := x.(inbox := x.inbox[1..], receiving := true); Half(x', y) && Half(y, x')
  {
    Popped(x, y);
  }

  lemma SentKeeps(x: Session, y: Session)
    requires Inv(x, y) && x.inbox != [] && x.inbox[0] == Sent && x.state == Active
    ensures Deliver(x, y).Ok? && Inv(Deliver(x, y).self, Deliver(x, y).peer)
  {
    SentIs(x, y);
    if Accepts(x.queue, y.msg, x.maxmem) { SentIn(x, y); } else { SentWaits(x, y); }
  }

  lemma ReceivedKeeps(x: Session, y: Session)
    requires Inv(x, y) && x.inbox != [] && x.inbox[0] == Received && x.state == Active
    ensures Deliver(x, y).Ok? && Inv(Deliver(x, y).self, Deliver(x, y).peer)
  {
    Popped(x, y);
  }

  /** The session after it has learned of the disconnect and its owner has reacted. */
  function Disconnected1(x: Session): Session {
    PipeStop(x).(inbox := [], state := if x.owner == Binproc then Stopped else Disconnected)
  }

  lemma DisconnectIs(x: Session, y: Session)
    requires Inv(x, y) && x.inbox != [] && x.inbox[0] == Disconnect && x.state == Active
    ensures Deliver(x, y) == Ok(Disconnected1(x), Raise(y, Disconnect))
  {
    Popped(x, y);
  }

  lemma DisconnectHalves(x: Session, y: Session)
    requires Inv(x, y) && x.inbox != [] && x.inbox[0] == Disconnect && x.state == Active
    ensures Half(Disconnected1(x), Raise(y, Disconnect)) && Half(Raise(y, Disconnect), Disconnected1(x))
  {
    Popped(x, y);
  }

  lemma DisconnectKeeps(x: Session, y: Session)
    requires Inv(x, y) && x.inbox != [] && x.inbox[0] == Disconnect && x.state == Active
    ensures Deliver(x, y).Ok? && Inv(Deliver(x, y).self, Deliver(x, y).peer)
  {
    DisconnectIs(x, y);
    DisconnectHalves(x, y);
  }

  lemma ShutdownKeeps(x: Session, y: Session)
    requires Inv(x, y) && x.inbox != [] && x.state != Active
    ensures Deliver(x, y).Ok? && Inv(Deliver(x, y).self, Deliver(x, y).peer)
  {
    Popped(x, y);
  }

  /** Whatever happens next at either session, no assertion fails, no unexpected-event branch is
      reached, and the invariant holds again. */
  lemma ActKeeps(x: Session, y: Session, a: Action)
    requires Inv(x, y) && Enabled(x, a)
    ensures Act(x, y, a).Ok? && Inv(Act(x, y, a).self, Act(x, y, a).peer)
  {
    match a
    case UserSend(m) => SendKeeps(x, y, m);
    case UserRecv => RecvKeeps(x, y);
    case UserStop => StopKeeps(x, y);
    case Process =>
      if x.state != Active { ShutdownKeeps(x, y); }
      else {
        match x.inbox[0]
        case Sent => SentKeeps(x, y);
        case Received => ReceivedKeeps(x, y);
        case Disconnect => DisconnectKeeps(x, y);
      }
  }

  // ---------------------------------------------------------------- runs

  /** One critical section: of the first session of the pair, or of the second. */
  datatype Step = Step(first: bool, action: Action)

  datatype Pair = Pair(a: Session, b: Session)

  predicate CanStep(p: Pair, s: Step) {
    if s.first then Enabled(p.a, s.action) else Enabled(p.b, s.action)
  }

  function Next(p: Pair, s: Step): Outcome
    requires CanStep(p, s)
  {
    if s.first then Act(p.a, p.b, s.action) else Act(p.b, p.a, s.action)
  }

  function After(s: Step, o: Outcome): Pair
    requires o.Ok?
  {
    if s.first then Pair(o.self, o.peer) else Pair(o.peer, o.self)
  }

  function Start(oa: Owner, ma: nat, ob: Owner, mb: nat): Pair { Pair(Fresh(oa, ma), Fresh(ob, mb)) }

  /** ps is a run of a connection that starts with both sides ACTIVE. */
  predicate Run(ps: seq<Pair>, steps: seq<Step>) {
    && |ps| == |steps| + 1
    && ps[0] == Start(ps[0].a.owner, ps[0].a.maxmem, ps[0].b.owner, ps[0].b.maxmem)
    && forall i :: 0 <= i < |steps| ==>
         CanStep(ps[i], steps[i]) && Next(ps[i], steps[i]).Ok? && ps[i + 1] == After(steps[i], Next(ps[i], steps[i]))
  }

  lemma {:induction false} RunKeeps(ps: seq<Pair>, steps: seq<Step>, i: nat)
    requires Run(ps, steps) && i < |ps|
    ensures Inv(ps[i].a, ps[i].b)
  {
    if i == 0 {
      FreshInv(ps[0]);
    } else {
      RunKeeps(ps, steps, i - 1);
      var p, s := ps[i - 1], steps[i - 1];
      assert ps[i] == After(s, Next(p, s));
      if s.first { ActKeeps(p.a, p.b, s.action); } else { ActKeeps(p.b, p.a, s.action); }
    }
  }

  lemma FreshInv(p: Pair)
    requires p == Start(p.a.owner, p.a.maxmem, p.b.owner, p.b.maxmem)
    ensures Inv(p.a, p.b)
  {
  }

  /** No run can be stopped by a failed assertion or an unexpected event: every step that the users,
      the sockets or the events in flight ask for is one the code can take. */
  lemma NeverAborts(ps: seq<Pair>, steps: seq<Step>, s: Step)
    requires Run(ps, steps) && CanStep(ps[|steps|], s)
    ensures Next(ps[|steps|], s).Ok?
  {
    RunKeeps(ps, steps, |steps|);
    var p := ps[|steps|];
    if s.first { ActKeeps(p.a, p.b, s.action); } else { ActKeeps(p.b, p.a, s.action); }
  }

  /** Exactly once and in order: as long as b has not noticed a disconnect, what a's user sent is what
      b's user received, then b's queue, then a's one message that has not been moved yet.  And what
      b's user received is always a prefix of what a's user sent. */
  lemma Delivered(ps: seq<Pair>, steps: seq<Step>, i: nat)
    requires Run(ps, steps) && i < |ps|
    ensures var a, b := ps[i].a, ps[i].b;
            && (b.state == Active ==>
                  a.handed == b.taken + b.queue + (if Sent in b.inbox || b.receiving then [a.msg] else []))
            && (a.state == Active ==>
                  b.handed == a.taken + a.queue + (if Sent in a.inbox || a.receiving then [b.msg] else []))
            && b.taken <= a.handed && a.taken <= b.handed
  {
    RunKeeps(ps, steps, i);
  }

  /** The pipe at one end is readable exactly when a message is queued; and while it is not writable there
      is an event in flight, or a peer whose user can read. */
  predicate Awake(x: Session, y: Session) {
    && (x.attached ==> (x.readable <==> x.queue != []) && (x.instate == Idle <==> x.queue != []))
    && (x.state == Active && y.state == Active && !x.writable ==> Sent in y.inbox || Received in x.inbox || y.readable)
  }

  /** No lost wake-up, at either end of the connection. */
  lemma NoLostWakeUp(ps: seq<Pair>, steps: seq<Step>, i: nat)
    requires Run(ps, steps) && i < |ps|
    ensures Awake(ps[i].a, ps[i].b) && Awake(ps[i].b, ps[i].a)
  {
    RunKeeps(ps, steps, i);
  }

  /** A stopped session changes no more, whatever its peer does. */
  lemma StoppedAlone(x: Session, y: Session, a: Action)
    requires Inv(x, y) && x.state == Stopped && Enabled(y, a)
    ensures x.inbox == [] && Act(y, x, a) == Ok(Act(y, x, a).self, x)
  {
    ActKeeps(y, x, a);
  }

  lemma StoppedInert(x: Session, y: Session, a: Action)
    requires Inv(x, y) && x.state == Stopped && Enabled(x, a)
    ensures Act(x, y, a) == Ok(x, y)
  {
  }

  lemma StepStopped(p: Pair, s: Step)
    requires Inv(p.a, p.b) && CanStep(p, s) && Next(p, s).Ok?
    ensures p.a.state == Stopped ==> After(s, Next(p, s)).a == p.a
    ensures p.b.state == Stopped ==> After(s, Next(p, s)).b == p.b
  {
    if p.a.state == Stopped {
      if s.first { StoppedInert(p.a, p.b, s.action); } else { StoppedAlone(p.a, p.b, s.action); }
    }
    if p.b.state == Stopped {
      if s.first { StoppedAlone(p.b, p.a, s.action); } else { StoppedInert(p.b, p.a, s.action); }
    }
  }

  /** STOPPED is reported only when nothing is in flight to the session and its peer will never raise
      an event to it again. */
  lemma {:induction false} StoppedForGood(ps: seq<Pair>, steps: seq<Step>, i: nat, j: nat)
    requires Run(ps, steps) && i <= j < |ps|
    ensures ps[i].a.state == Stopped ==> ps[i].a.inbox == [] && ps[j].a == ps[i].a
    ensures ps[i].b.state == Stopped ==> ps[i].b.inbox == [] && ps[j].b == ps[i].b
  {
    if i < j {
      StoppedForGood(ps, steps, i, j - 1);
      RunKeeps(ps, steps, j - 1);
      StepStopped(ps[j - 1], steps[j - 1]);
    } else {
      RunKeeps(ps, steps, i);
    }
  }

  /** The disconnect completes: once the events in flight are processed, no session that was asked to
      stop is still waiting. */
  lemma DisconnectCompletes(ps: seq<Pair>, steps: seq<Step>, i: nat)
    requires Run(ps, steps) && i < |ps|
    requires ps[i].a.inbox == [] && ps[i].b.inbox == []
    ensures var a, b := ps[i].a.state, ps[i].b.state;
            && (a == Active <==> b == Active)
            && (a == Active || a == Disconnected || a == Stopped)
            && (a == Disconnected ==> ps[i].a.owner == Cinproc)
  {
    RunKeeps(ps, steps, i);
  }
}
