/** An XREQ socket with inproc pipes from nn_close on.  In STOPPING_EPS nn_sock_shutdown ignores NN_PIPE_IN and
    NN_PIPE_OUT (core/sock.c), so fair queue and load balancer fall behind the sessions: a list may miss a
    pipe that is ready.  It never holds one that is not, and that is enough. */
module XreqClosing {
  import opened Options
  import I = Inproc
  import P = PrioModel
  import X = XreqPipes

  /** A critical section of the closing socket or of a peer.  Removals still reach the lists, events do not.
      Receive and Transmit stand for what a protocol that is still at work may do. */
  function Perform(s: X.Socket, t: X.Step): X.Result
    requires X.Enabled(s, t)
  {
    match t
    case Attach(p, own, mem, other, othermem, snd, rcv) =>
      X.With(s, p, X.Conn(I.Fresh(own, mem), I.Fresh(other, othermem), snd, rcv), Some(s.fq), Some(s.lb))
    case Own(p, a) => AtOwn(s, p, a)
    case _ => X.Perform(s, t)
  }

  function AtOwn(s: X.Socket, p: X.Pipe, a: I.Action): X.Result
    requires p in s.conns && I.Enabled(s.conns[p].own, a)
  {
    var c := s.conns[p];
    var r := I.Act(c.own, c.peer, a);
    if r.Abort? then X.Failed
    else
      X.With(s, p, c.(own := r.self, peer := r.peer),
             X.Inform(s.fq, p, c.rcvprio, false, X.Leaves(c.own, r.self)),
             X.Inform(s.lb, p, c.sndprio, false, X.Leaves(c.own, r.self)))
  }

  /** Every connection is in order; the fair queue lists the pipes of `fq`, all of which have a message, and
      the load balancer those of `lb`, all of which can take one. */
  ghost predicate Inv(s: X.Socket, fq: set<X.Pipe>, lb: set<X.Pipe>) {
    (&& (forall p :: p in s.conns ==> X.ConnOk(s.conns[p]))
     && X.Lists(s.fq, X.RcvPrio(s), fq) && fq <= X.Readable(s)
     && X.Lists(s.lb, X.SndPrio(s), lb) && lb <= X.Writable(s)) == true
  }

  /** When the close begins, the lists are complete. */
  lemma BeginsWith(s: X.Socket)
    requires X.Inv(s)
    ensures Inv(s, X.Readable(s), X.Writable(s))
  {
  }

  lemma StillListed(s: X.Socket, p: X.Pipe, c: X.Conn, q: P.Prio<X.Pipe>, b: P.Prio<X.Pipe>,
                    fq: set<X.Pipe>, lb: set<X.Pipe>)
    requires p in s.conns && c.rcvprio == s.conns[p].rcvprio && c.sndprio == s.conns[p].sndprio
    requires fq <= X.Readable(s) && (p in fq ==> X.CanRead(c.own))
    requires lb <= X.Writable(s) && (p in lb ==> X.CanWrite(c.own))
    ensures var s' := X.Socket(s.conns[p := c], q, b);
            X.RcvPrio(s') == X.RcvPrio(s) && fq <= X.Readable(s')
            && X.SndPrio(s') == X.SndPrio(s) && lb <= X.Writable(s')
  {
    X.ChangedRead(s, p, c, q, b);
    X.ChangedWrite(s, p, c, q, b);
  }

  /** One pipe has changed, and the lists, which may have lost pipes, hold it only where it is ready. */
  lemma Changed(s: X.Socket, p: X.Pipe, c: X.Conn, q: P.Prio<X.Pipe>, b: P.Prio<X.Pipe>,
                fq: set<X.Pipe>, lb: set<X.Pipe>)
    requires (forall r :: r in s.conns ==> X.ConnOk(s.conns[r])) && p in s.conns && X.ConnOk(c)
    requires c.rcvprio == s.conns[p].rcvprio && c.sndprio == s.conns[p].sndprio
    requires X.Lists(q, X.RcvPrio(s), fq) && fq <= X.Readable(s) && (p in fq ==> X.CanRead(c.own))
    requires X.Lists(b, X.SndPrio(s), lb) && lb <= X.Writable(s) && (p in lb ==> X.CanWrite(c.own))
    ensures Inv(X.Socket(s.conns[p := c], q, b), fq, lb)
  {
    StillListed(s, p, c, q, b, fq, lb);
  }

  /** A removal, or nothing. */
  lemma Informed(q: P.Prio<X.Pipe>, prio: map<X.Pipe, int>, listed: set<X.Pipe>, p: X.Pipe, gone: bool)
    requires X.Lists(q, prio, listed) && p in prio && 1 <= prio[p] <= P.SLOTS
    ensures var q' := X.Inform(q, p, prio[p], false, gone);
            q'.Some? && X.Lists(q'.value, prio, if gone then listed - {p} else listed)
  {
    X.ListInforms(q, prio, listed, p, false, gone);
    X.Same(listed, p);
  }

  // ---------------------------------------------------------------- one step

  function Minus(listed: set<X.Pipe>, p: X.Pipe, gone: bool): set<X.Pipe> {
    if gone then listed - {p} else listed
  }

  lemma OwnIs(s: X.Socket, p: X.Pipe, a: I.Action, q: P.Prio<X.Pipe>, b: P.Prio<X.Pipe>)
    requires p in s.conns && I.Enabled(s.conns[p].own, a) && I.Act(s.conns[p].own, s.conns[p].peer, a).Ok?
    requires var c, x := s.conns[p], I.Act(s.conns[p].own, s.conns[p].peer, a).self;
             && X.Inform(s.fq, p, c.rcvprio, false, X.Leaves(c.own, x)) == Some(q)
             && X.Inform(s.lb, p, c.sndprio, false, X.Leaves(c.own, x)) == Some(b)
    ensures var c, r := s.conns[p], I.Act(s.conns[p].own, s.conns[p].peer, a);
            AtOwn(s, p, a) == X.Next(X.Socket(s.conns[p := c.(own := r.self, peer := r.peer)], q, b))
  {
  }

  lemma OwnKeeps(s: X.Socket, p: X.Pipe, a: I.Action, fq: set<X.Pipe>, lb: set<X.Pipe>) returns (gone: bool)
    requires Inv(s, fq, lb) && X.Enabled(s, X.Own(p, a))
    ensures AtOwn(s, p, a).Next? && Inv(AtOwn(s, p, a).socket, Minus(fq, p, gone), Minus(lb, p, gone))
  {
    var c := s.conns[p];
    assert X.ConnOk(c);
    X.OwnReports(c.own, c.peer, a);
    var r := I.Act(c.own, c.peer, a);
    gone := X.Leaves(c.own, r.self);
    Informed(s.fq, X.RcvPrio(s), fq, p, gone);
    Informed(s.lb, X.SndPrio(s), lb, p, gone);
    var q, b := X.Inform(s.fq, p, c.rcvprio, false, gone).value, X.Inform(s.lb, p, c.sndprio, false, gone).value;
    OwnIs(s, p, a, q, b);
    Changed(s, p, c.(own := r.self, peer := r.peer), q, b, Minus(fq, p, gone), Minus(lb, p, gone));
  }

  lemma PeerKeeps(s: X.Socket, p: X.Pipe, a: I.Action, fq: set<X.Pipe>, lb: set<X.Pipe>)
    requires Inv(s, fq, lb) && X.Enabled(s, X.Peer(p, a))
    ensures X.AtPeer(s, p, a).Next? && Inv(X.AtPeer(s, p, a).socket, fq, lb)
  {
    var c := s.conns[p];
    assert X.ConnOk(c);
    X.AtPeerIs(s, p, a);
    X.PeerReports(c.own, c.peer, a);
    var r := I.Act(c.peer, c.own, a);
    Changed(s, p, c.(own := r.peer, peer := r.self), s.fq, s.lb, fq, lb);
  }

  lemma ReceiveKeeps(s: X.Socket, p: X.Pipe, fq: set<X.Pipe>, lb: set<X.Pipe>) returns (gone: bool)
    requires Inv(s, fq, lb) && X.Head(s.fq) == Some(p) && p in fq
    ensures X.ReceiveFrom(s, p).Next? && Inv(X.ReceiveFrom(s, p).socket, Minus(fq, p, gone), lb)
  {
    var c := s.conns[p];
    assert X.ConnOk(c);
    X.ReceiveReports(c.own, c.peer);
    var r := I.Recv(c.own, c.peer);
    gone := r.self.instate == I.Async;
    X.ListAdvance(s.fq, X.RcvPrio(s), fq, gone);
    var c', q := c.(own := r.self, peer := r.peer), X.Do(s.fq, P.Advance(gone));
    X.ReceiveFromIs(s, p, c', q);
    Changed(s, p, c', q.value, s.lb, Minus(fq, p, gone), lb);
  }

  lemma TransmitKeeps(s: X.Socket, p: X.Pipe, m: I.Message, fq: set<X.Pipe>, lb: set<X.Pipe>)
    requires Inv(s, fq, lb) && X.Head(s.lb) == Some(p) && p in lb
    ensures X.SendTo(s, p, m).Next? && Inv(X.SendTo(s, p, m).socket, fq, Minus(lb, p, true))
  {
    var c := s.conns[p];
    assert X.ConnOk(c);
    X.SendReports(c.own, c.peer, m);
    var r := I.Send(c.own, c.peer, m);
    X.ListAdvance(s.lb, X.SndPrio(s), lb, true);
    var c', b := c.(own := r.self, peer := r.peer), X.Do(s.lb, P.Advance(true));
    X.SendToIs(s, p, m, c', b);
    Changed(s, p, c', s.fq, b.value, fq, Minus(lb, p, true));
  }

  lemma AttachKeeps(s: X.Socket, t: X.Step, fq: set<X.Pipe>, lb: set<X.Pipe>)
    requires Inv(s, fq, lb) && t.Attach? && X.Enabled(s, t)
    ensures Perform(s, t).Next? && Inv(Perform(s, t).socket, fq, lb)
  {
    var p, c := t.p, X.Conn(I.Fresh(t.own, t.maxmem), I.Fresh(t.other, t.othermem), t.sndprio, t.rcvprio);
    X.T.FreshInv(X.T.Pair(c.own, c.peer));
    X.ListGrows(s.fq, X.RcvPrio(s), fq, p, t.rcvprio);
    X.ListGrows(s.lb, X.SndPrio(s), lb, p, t.sndprio);
    X.AttachedRead(s, p, c, s.lb);
    X.AttachedWrite(s, p, c, s.lb);
  }

  /** nn_xreq_recv, whether the fair queue lists a pipe or none. */
  lemma Receives(s: X.Socket, fq: set<X.Pipe>, lb: set<X.Pipe>) returns (fq': set<X.Pipe>)
    requires Inv(s, fq, lb)
    ensures var r := X.Perform(s, X.Receive);
            !r.Failed? && (r.Again? <==> fq == {}) && (r.Next? ==> Inv(r.socket, fq', lb))
    ensures fq' <= fq
  {
    fq' := fq;
    X.HeadIsBest(s.fq, X.RcvPrio(s), fq);
    if fq != {} {
      var gone := ReceiveKeeps(s, X.Head(s.fq).value, fq, lb);
      fq' := Minus(fq, X.Head(s.fq).value, gone);
    }
  }

  /** nn_xreq_send, whether the load balancer lists a pipe or none. */
  lemma Transmits(s: X.Socket, m: I.Message, fq: set<X.Pipe>, lb: set<X.Pipe>) returns (lb': set<X.Pipe>)
    requires Inv(s, fq, lb)
    ensures var r := X.Perform(s, X.Transmit(m));
            !r.Failed? && (r.Again? <==> lb == {}) && (r.Next? ==> Inv(r.socket, fq, lb'))
    ensures lb' <= lb
  {
    lb' := lb;
    X.HeadIsBest(s.lb, X.SndPrio(s), lb);
    if lb != {} {
      TransmitKeeps(s, X.Head(s.lb).value, m, fq, lb);
      lb' := Minus(lb, X.Head(s.lb).value, true);
    }
  }

  /** Whatever happens next while the socket is closing: no assertion fails, in a session or in a list, and the
      lists, which can only lose pipes now, hold none that is not ready. */
  lemma StepKeeps(s: X.Socket, t: X.Step, fq: set<X.Pipe>, lb: set<X.Pipe>)
    returns (fq': set<X.Pipe>, lb': set<X.Pipe>)
    requires Inv(s, fq, lb) && X.Enabled(s, t)
    ensures !Perform(s, t).Failed?
    ensures Perform(s, t).Again? <==> (t.Receive? && fq == {}) || (t.Transmit? && lb == {})
    ensures Perform(s, t).Next? ==> Inv(Perform(s, t).socket, fq', lb')
    ensures fq' <= fq && lb' <= lb
  {
    fq', lb' := fq, lb;
    match t
    case Attach(_, _, _, _, _, _, _) => AttachKeeps(s, t, fq, lb);
    case Receive => fq' := Receives(s, fq, lb);
    case Transmit(m) => lb' := Transmits(s, m, fq, lb);
    case Own(p, a) =>
      var gone := OwnKeeps(s, p, a, fq, lb);
      fq', lb' := Minus(fq, p, gone), Minus(lb, p, gone);
    case Peer(p, a) => PeerKeeps(s, p, a, fq, lb);
  }

  // ---------------------------------------------------------------- runs

  /** ss is a run of a socket after nn_close. */
  predicate Run(ss: seq<X.Socket>, steps: seq<X.Step>) {
    && |ss| == |steps| + 1
    && forall i :: 0 <= i < |steps| ==>
         && X.Enabled(ss[i], steps[i]) && !Perform(ss[i], steps[i]).Failed? && ss[i + 1] == After(ss[i], steps[i])
  }

  function After(s: X.Socket, t: X.Step): X.Socket
    requires X.Enabled(s, t) && !Perform(s, t).Failed?
  {
    if Perform(s, t).Again? then s else Perform(s, t).socket
  }

  lemma Goes(s: X.Socket, t: X.Step, fq: set<X.Pipe>, lb: set<X.Pipe>) returns (fq': set<X.Pipe>, lb': set<X.Pipe>)
    requires Inv(s, fq, lb) && X.Enabled(s, t) && !Perform(s, t).Failed?
    ensures Inv(After(s, t), fq', lb') && fq' <= fq && lb' <= lb
  {
    fq', lb' := StepKeeps(s, t, fq, lb);
    if Perform(s, t).Again? { return fq, lb; }
  }

  lemma {:induction false} RunKeeps(ss: seq<X.Socket>, steps: seq<X.Step>, i: nat)
    returns (fq: set<X.Pipe>, lb: set<X.Pipe>)
    requires Run(ss, steps) && X.Inv(ss[0]) && i < |ss|
    ensures Inv(ss[i], fq, lb) && fq <= X.Readable(ss[0]) && lb <= X.Writable(ss[0])
  {
    if i == 0 {
      BeginsWith(ss[0]);
      return X.Readable(ss[0]), X.Writable(ss[0]);
    }
    fq, lb := RunKeeps(ss, steps, i - 1);
    fq, lb := Goes(ss[i - 1], steps[i - 1], fq, lb);
  }

  /** A socket that is closed in the middle of any run fails no assertion afterwards either. */
  lemma NeverFails(before: seq<X.Socket>, past: seq<X.Step>, ss: seq<X.Socket>, steps: seq<X.Step>, t: X.Step)
    requires X.Run(before, past) && Run(ss, steps) && ss[0] == before[|past|] && X.Enabled(ss[|steps|], t)
    ensures !Perform(ss[|steps|], t).Failed?
  {
    X.RunKeeps(before, past, |past|);
    var fq, lb := RunKeeps(ss, steps, |steps|);
    fq, lb := StepKeeps(ss[|steps|], t, fq, lb);
  }
}
