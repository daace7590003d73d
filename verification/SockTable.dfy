/** The table of sockets (core/global.c): slots, the stack of unused ones, and all sockets together. */
module SockTable {
  import opened Options
  import M = SockModel
  import S = Sock

  const MAX_SOCKETS := 512

  // ---------------------------------------------------------------- slots

  /** self.socks, self.unused and self.nsocks.  The slots that are free are the first
      MAX_SOCKETS - nsocks entries of the stack. */
  datatype Slots<T> = Slots(socks: seq<Option<T>>, unused: seq<nat>, nsocks: nat)

  /** nn_global_init. */
  function Fresh<T>(): Slots<T> {
    Slots(seq(MAX_SOCKETS, _ => None), seq(MAX_SOCKETS, i => MAX_SOCKETS - 1 - i), 0)
  }

  function Live<T>(q: seq<Option<T>>): (n: nat)
    ensures n <= |q|
  {
    if q == [] then 0 else Live(q[..|q| - 1]) + if q[|q| - 1].Some? then 1 else 0
  }

  ghost predicate Free<T(!new)>(t: Slots<T>, i: nat)
    requires |t.unused| == MAX_SOCKETS && t.nsocks <= MAX_SOCKETS
  {
    i in t.unused[..MAX_SOCKETS - t.nsocks]
  }

  /** Live sockets and the unused stack partition the slots; nsocks is the number of live ones. */
  ghost predicate Partition<T(!new)>(t: Slots<T>) {
    && |t.socks| == |t.unused| == MAX_SOCKETS && t.nsocks == Live(t.socks)
    && (forall k :: 0 <= k < MAX_SOCKETS - t.nsocks ==> t.unused[k] < MAX_SOCKETS && t.socks[t.unused[k]].None?)
    && (forall j, k :: 0 <= j < k < MAX_SOCKETS - t.nsocks ==> t.unused[j] != t.unused[k])
    && (forall i :: 0 <= i < MAX_SOCKETS && t.socks[i].None? ==> Free(t, i))
  }

  /** Lines 447 and 463-465 of nn_global_create_socket: the slot, and the table with a socket in it. */
  function Top<T>(t: Slots<T>): nat
    requires |t.unused| == MAX_SOCKETS && t.nsocks < MAX_SOCKETS
  {
    t.unused[MAX_SOCKETS - t.nsocks - 1]
  }

  function Open<T>(t: Slots<T>, x: T): Slots<T>
    requires |t.socks| == |t.unused| == MAX_SOCKETS && t.nsocks < MAX_SOCKETS && Top(t) < MAX_SOCKETS
  {
    Slots(t.socks[Top(t) := Some(x)], t.unused, t.nsocks + 1)
  }

  /** Lines 542-544 of nn_close. */
  function Shut<T>(t: Slots<T>, s: nat): Slots<T>
    requires |t.socks| == |t.unused| == MAX_SOCKETS && 0 < t.nsocks <= MAX_SOCKETS && s < MAX_SOCKETS
  {
    Slots(t.socks[s := None], t.unused[MAX_SOCKETS - t.nsocks := s], t.nsocks - 1)
  }

  lemma {:induction false} LiveUpdate<T>(q: seq<Option<T>>, s: nat, x: Option<T>)
    requires s < |q|
    ensures Live(q[s := x]) == Live(q) + (if x.Some? then 1 else 0) - if q[s].Some? then 1 else 0
  {
    var r := q[s := x];
    if s == |q| - 1 {
      assert r[..|q| - 1] == q[..|q| - 1];
    } else {
      assert r[..|q| - 1] == q[..|q| - 1][s := x];
      LiveUpdate(q[..|q| - 1], s, x);
    }
  }

  lemma {:induction false} AllLive<T>(q: seq<Option<T>>)
    ensures Live(q) == |q| <==> forall i :: 0 <= i < |q| ==> q[i].Some?
  {
    if q != [] {
      var p := q[..|q| - 1];
      AllLive(p);
      assert forall i :: 0 <= i < |p| ==> p[i] == q[i];
      if Live(q) == |q| {
        forall i | 0 <= i < |q| ensures q[i].Some? {
          if i < |p| { assert p[i].Some?; }
        }
      }
    }
  }

  lemma {:induction false} NoneLive<T>(q: seq<Option<T>>)
    requires forall i :: 0 <= i < |q| ==> q[i].None?
    ensures Live(q) == 0
  {
    if q != [] { NoneLive(q[..|q| - 1]); }
  }

  lemma FreshPartition<T(!new)>()
    ensures Partition(Fresh<T>())
  {
    var t := Fresh<T>();
    NoneLive(t.socks);
    assert t.unused[..MAX_SOCKETS] == t.unused;
    forall i: nat | i < MAX_SOCKETS ensures Free(t, i) {
      assert t.unused[MAX_SOCKETS - 1 - i] == i;
    }
  }

  /** A new socket gets a slot that nobody has; the others keep theirs. */
  lemma OpenKeeps<T(!new)>(t: Slots<T>, x: T)
    requires Partition(t) && t.nsocks < MAX_SOCKETS
    ensures Top(t) < MAX_SOCKETS && t.socks[Top(t)].None? && Partition(Open(t, x))
  {
    var u := Open(t, x);
    LiveUpdate(t.socks, Top(t), Some(x));
    forall i: nat | i < MAX_SOCKETS && u.socks[i].None? ensures Free(u, i) { OtherFree(t, x, i); }
  }

  lemma OtherFree<T(!new)>(t: Slots<T>, x: T, i: nat)
    requires Partition(t) && t.nsocks < MAX_SOCKETS && i < MAX_SOCKETS && i != Top(t) && t.socks[i].None?
    ensures Top(t) < MAX_SOCKETS && Free(Open(t, x), i)
  {
    var n := MAX_SOCKETS - t.nsocks;
    assert Free(t, i);
    var k :| 0 <= k < n && t.unused[k] == i;
    assert Open(t, x).unused[..n - 1][k] == i;
  }

  /** A freed slot goes back on the stack. */
  lemma ShutKeeps<T(!new)>(t: Slots<T>, s: nat)
    requires Partition(t) && s < MAX_SOCKETS && t.socks[s].Some?
    ensures t.nsocks > 0 && Partition(Shut(t, s))
  {
    LiveUpdate(t.socks, s, None);
    var u := Shut(t, s);
    forall i: nat | i < MAX_SOCKETS && u.socks[i].None? ensures Free(u, i) {
      if i == s { FreeAfter(t, s); } else { StaysFree(t, s, i); }
    }
  }

  lemma FreeAfter<T(!new)>(t: Slots<T>, s: nat)
    requires Partition(t) && s < MAX_SOCKETS && t.nsocks > 0
    ensures Free(Shut(t, s), s)
  {
    var n := MAX_SOCKETS - t.nsocks;
    assert Shut(t, s).unused[..n + 1][n] == s;
  }

  lemma StaysFree<T(!new)>(t: Slots<T>, s: nat, i: nat)
    requires Partition(t) && s < MAX_SOCKETS && t.nsocks > 0 && i < MAX_SOCKETS && t.socks[i].None?
    ensures Free(Shut(t, s), i)
  {
    var n := MAX_SOCKETS - t.nsocks;
    assert Free(t, i);
    var k :| 0 <= k < n && t.unused[k] == i;
    assert Shut(t, s).unused[..n + 1][k] == i;
  }

  /** -EMFILE is exact: nn_socket refuses only when every slot has a socket. */
  lemma FullExactly<T(!new)>(t: Slots<T>)
    requires Partition(t)
    ensures t.nsocks >= MAX_SOCKETS <==> forall i :: 0 <= i < MAX_SOCKETS ==> t.socks[i].Some?
  {
    AllLive(t.socks);
  }

  // ---------------------------------------------------------------- all sockets together

  type Table = Slots<M.Sock>

  /** One critical section: a nn_socket call, or a step in the life of the socket in slot s. */
  datatype Op = Socket(stops: bool) | On(s: int, step: M.Step)

  datatype Outcome = Abort | Refused | Ok(table: Table)

  predicate Has(t: Table, s: int) { 0 <= s < |t.socks| && t.socks[s].Some? }

  predicate Enabled(t: Table, op: Op) {
    op.On? && Has(t, op.s) ==> M.Enabled(t.socks[op.s].value, op.step)
  }

  /** The table after a close.  Without sockets it is given up (nn_global_term), and the next nn_socket
      makes a new one. */
  function AfterClose(t: Table): Table { if t.nsocks == 0 then Fresh() else t }

  lemma CanApply(t: Table, op: Op)
    requires Partition(t)
    ensures t.nsocks < MAX_SOCKETS ==> Top(t) < MAX_SOCKETS
    ensures op.On? && Has(t, op.s) ==> t.nsocks > 0
  {
    if op.On? && Has(t, op.s) { ShutKeeps(t, op.s); }
  }

  ghost function Apply(t: Table, op: Op): Outcome
    requires Partition(t)
  {
    CanApply(t, op);
    match op
    case Socket(stops) => if t.nsocks >= MAX_SOCKETS then Refused else Ok(Open(t, M.Fresh(stops)))
    case On(s, step) =>
      if !Has(t, s) then Refused else Put(t, s, M.Apply(t.socks[s].value, step))
  }

  /** What has become of the socket in slot s. */
  function Put(t: Table, s: nat, r: M.Outcome): Outcome
    requires |t.socks| == |t.unused| == MAX_SOCKETS && 0 < t.nsocks <= MAX_SOCKETS && s < MAX_SOCKETS
  {
    match r
    case Abort => Abort
    case Refused => Refused
    case Ok(x) => Ok(t.(socks := t.socks[s := Some(x)]))
    case Freed => Ok(AfterClose(Shut(t, s)))
  }

  ghost predicate Inv(t: Table) {
    (Partition(t) && forall s :: 0 <= s < MAX_SOCKETS && t.socks[s].Some? ==> M.Inv(t.socks[s].value)) == true
  }

  /** An endpoint is added to an active socket only. */
  predicate InTime(t: Table, op: Op) {
    op.On? && op.step == M.AddEp && Has(t, op.s) ==> t.socks[op.s].value.state == M.Active
  }

  /** Whatever comes next of nn_socket, holds, endpoint calls and events, and closes on any number of sockets: no
      assertion fails, and slots and stack still partition the table and every socket keeps its invariant,
      exactly unless an endpoint comes too late. */
  lemma StepKeeps(t: Table, op: Op)
    requires Inv(t) && Enabled(t, op)
    ensures !Apply(t, op).Abort?
    ensures Apply(t, op).Ok? ==> (Inv(Apply(t, op).table) <==> InTime(t, op))
  {
    match op
    case Socket(stops) => if t.nsocks < MAX_SOCKETS { SocketKeeps(t, stops); }
    case On(s, step) => if Has(t, s) { OnKeeps(t, s, step); }
  }

  lemma SocketKeeps(t: Table, stops: bool)
    requires Inv(t) && t.nsocks < MAX_SOCKETS
    ensures Top(t) < MAX_SOCKETS && Inv(Open(t, M.Fresh(stops)))
  {
    OpenKeeps(t, M.Fresh(stops));
    M.FreshInv(stops);
  }

  lemma OnKeeps(t: Table, s: int, step: M.Step)
    requires Inv(t) && Has(t, s) && M.Enabled(t.socks[s].value, step)
    ensures !Apply(t, On(s, step)).Abort?
    ensures Apply(t, On(s, step)).Ok? ==> (Inv(Apply(t, On(s, step)).table) <==> InTime(t, On(s, step)))
  {
    CanApply(t, On(s, step));
    M.StepKeeps(t.socks[s].value, step);
    PutKeeps(t, s, M.Apply(t.socks[s].value, step));
  }

  lemma PutKeeps(t: Table, s: nat, r: M.Outcome)
    requires Inv(t) && Has(t, s) && t.nsocks > 0
    requires !r.Abort?
    ensures !Put(t, s, r).Abort? && (Put(t, s, r).Ok? ==> (Inv(Put(t, s, r).table) <==> (r.Ok? ==> M.Inv(r.sock))))
  {
    if r.Ok? {
      ReplaceKeeps(t, s, r.sock);
    } else if r.Freed? {
      FreedKeeps(t, s);
    }
  }

  lemma FreedKeeps(t: Table, s: nat)
    requires Inv(t) && Has(t, s) && t.nsocks > 0
    ensures Inv(AfterClose(Shut(t, s)))
  {
    ShutKeeps(t, s);
    FreshPartition<M.Sock>();
    var u := Shut(t, s);
    assert forall i :: 0 <= i < MAX_SOCKETS && u.socks[i].Some? ==> u.socks[i] == t.socks[i];
  }

  lemma ReplacePartition<T(!new)>(t: Slots<T>, s: nat, x: T)
    requires Partition(t) && s < MAX_SOCKETS && t.socks[s].Some?
    ensures Partition(t.(socks := t.socks[s := Some(x)]))
  {
    LiveUpdate(t.socks, s, Some(x));
    var u := t.(socks := t.socks[s := Some(x)]);
    forall i: nat | i < MAX_SOCKETS && u.socks[i].None? ensures Free(u, i) {
      assert Free(t, i);
    }
  }

  lemma ReplaceKeeps(t: Table, s: nat, x: M.Sock)
    requires Inv(t) && Has(t, s)
    ensures Inv(t.(socks := t.socks[s := Some(x)])) <==> M.Inv(x)
  {
    ReplacePartition(t, s, x);
    assert t.(socks := t.socks[s := Some(x)]).socks[s].value == x;
  }

  /** The table after an operation that succeeds or is refused. */
  ghost function After(t: Table, op: Op): Table
    requires Partition(t)
  {
    if Apply(t, op).Ok? then Apply(t, op).table else t
  }

  /** All that can happen from an empty table, in any order, with no endpoint added to a socket that is being
      closed.  (That operations are defined is part of what RunSafe shows.) */
  ghost predicate Run(ts: seq<Table>, ops: seq<Op>) {
    && |ts| == |ops| + 1 && ts[0] == Fresh()
    && forall i :: 0 <= i < |ops| ==>
         && Enabled(ts[i], ops[i]) && (Partition(ts[i]) ==> ts[i + 1] == After(ts[i], ops[i]))
         && InTime(ts[i], ops[i])
  }

  lemma {:induction false} RunSafe(ts: seq<Table>, ops: seq<Op>, n: nat)
    requires Run(ts, ops) && n <= |ops|
    ensures Inv(ts[n]) && (n < |ops| ==> !Apply(ts[n], ops[n]).Abort? && ts[n + 1] == After(ts[n], ops[n]))
  {
    if n == 0 {
      FreshPartition<M.Sock>();
    } else {
      RunSafe(ts, ops, n - 1);
      StepKeeps(ts[n - 1], ops[n - 1]);
    }
    if n < |ops| { StepKeeps(ts[n], ops[n]); }
  }

  // ---------------------------------------------------------------- struct nn_global, in place

  function Opt(p: S.Sock?): Option<S.Sock> {
    if p == null then None else var q: S.Sock := p; Some(q)
  }

  /** A socket as a value. */
  ghost function ValueOf(p: S.Sock?): Option<M.Sock>
    reads p
  {
    if p == null then None else Some(p.Value())
  }

  lemma {:induction false} LiveNone<T>(q: seq<Option<T>>)
    requires Live(q) == 0
    ensures forall i :: 0 <= i < |q| ==> q[i].None?
  {
    if q != [] { LiveNone(q[..|q| - 1]); }
  }

  class Global {
    const socks: array<S.Sock?>
    const unused: array<nat>
    var nsocks: nat

    ghost function Value(): Slots<S.Sock>
      reads this, socks, unused
    {
      Slots(seq(socks.Length, i requires 0 <= i < socks.Length reads this, socks => Opt(socks[i])), unused[..], nsocks)
    }

    ghost predicate Sized()
      reads this, unused
    {
      && socks.Length == unused.Length == MAX_SOCKETS && nsocks <= MAX_SOCKETS
      && (nsocks < MAX_SOCKETS ==> unused[MAX_SOCKETS - nsocks - 1] < MAX_SOCKETS)
    }

    /** nn_global_init. */
    constructor ()
      ensures Sized() && Value() == Fresh() && fresh(socks) && fresh(unused)
      ensures Whole() && State() == Fresh()
    {
      socks := new S.Sock?[MAX_SOCKETS](_ => null);
      unused := new nat[MAX_SOCKETS](i requires 0 <= i < MAX_SOCKETS => MAX_SOCKETS - i - 1);
      nsocks := 0;
    }

    /** nn_global_create_socket for a socket type that exists; None stands for -EMFILE. */
    method CreateSocket(stops: bool) returns (r: Option<nat>, sock: S.Sock?)
      requires Sized()
      modifies `nsocks, socks
      ensures if old(nsocks) >= MAX_SOCKETS then r == None && Value() == old(Value())
              else && r == Some(Top(old(Value()))) && sock != null && fresh(sock)
                   && sock.Value() == M.Fresh(stops) && Value() == Open(old(Value()), sock)
      ensures r.None? ==> socks[..] == old(socks[..])
      ensures r.Some? ==> socks[..] == old(socks[..])[r.value := sock] && sock.Eps() && sock.Owned() == {}
    {
      if nsocks >= MAX_SOCKETS {
        return None, null;
      }
      var s := unused[MAX_SOCKETS - nsocks - 1];
      sock := new S.Sock(stops);
      socks[s] := sock;
      nsocks := nsocks + 1;
      r := Some(s);
    }

    /** nn_global_hold_socket_locked; null stands for -EBADF. */
    method HoldSocket(s: int) returns (sock: S.Sock?)
      requires Sized()
      modifies set i | 0 <= i < socks.Length && socks[i] != null :: socks[i]
      ensures Value() == old(Value())
      ensures sock != null <==> 0 <= s < MAX_SOCKETS && socks[s] != null && old(socks[s].Value()).state == M.Active
      ensures sock != null ==> sock == socks[s] && M.Ok(sock.Value()) == M.Apply(old(socks[s].Value()), M.Hold)
    {
      if s < 0 || s >= MAX_SOCKETS {
        return null;
      }
      sock := socks[s];
      if sock == null {
        return null;
      }
      var ok := sock.Hold();
      if !ok {
        return null;
      }
    }

    /** Lines 541-545 of nn_close, for the socket that nn_sock_term has taken down. */
    method Release(s: nat)
      requires Sized() && s < MAX_SOCKETS && nsocks > 0
      modifies `nsocks, socks, unused
      ensures Sized() && Value() == Shut(old(Value()), s) && socks[..] == old(socks[..])[s := null]
      ensures unused[..] == old(unused[..])[MAX_SOCKETS - old(nsocks) := s]
    {
      socks[s] := null;
      unused[MAX_SOCKETS - nsocks] := s;
      nsocks := nsocks - 1;
    }

    // -------------------------------------------------------------- the table and its sockets

    ghost function Socks(): set<S.Sock>
      reads this, socks
    {
      set i | 0 <= i < socks.Length && socks[i] != null :: socks[i]
    }

    /** The table and all sockets in it, as a value. */
    ghost function State(): Table
      reads this, socks, unused, Socks()
    {
      Slots(seq(socks.Length, i requires 0 <= i < socks.Length reads this, socks, Socks() => ValueOf(socks[i])),
            unused[..], nsocks)
    }

    ghost function Eps(): set<S.Ep>
      reads this, socks, Socks()
    {
      set i, ep | 0 <= i < socks.Length && socks[i] != null && ep in socks[i].Owned() :: ep
    }

    /** No socket is in two slots, and no endpoint belongs to two sockets. */
    ghost predicate Apart()
      reads this, socks, Socks()
    {
      forall i, j :: 0 <= i < j < socks.Length && socks[i] != null && socks[j] != null ==>
        socks[i] != socks[j] && socks[i].Owned() !! socks[j].Owned()
    }

    ghost predicate Whole()
      reads this, socks, unused, Socks(), Eps()
    {
      && socks.Length == unused.Length == MAX_SOCKETS && Apart()
      && forall i :: 0 <= i < socks.Length && socks[i] != null ==> socks[i].Eps()
    }

    ghost predicate Valid()
      reads this, socks, unused, Socks(), Eps()
    {
      Whole() && Inv(State())
    }

    /** A critical section of the socket in slot s touches no other socket. */
    method Section(s: nat, step: M.Step) returns (ok: bool)
      requires Whole() && s < MAX_SOCKETS && socks[s] != null
      requires M.Inv(socks[s].Value()) && M.Enabled(socks[s].Value(), step) && !step.Term?
      modifies socks[s], socks[s].eps, socks[s].sdeps
      ensures Whole() && State() == old(State()).(socks := old(State()).socks[s := Some(socks[s].Value())])
      ensures M.Apply(old(socks[s].Value()), step) == if ok then M.Ok(socks[s].Value()) else M.Refused
      ensures !ok ==> socks[s].Value() == old(socks[s].Value())
    {
      var x := socks[s];
      ghost var before := State();
      ok := x.Act(step);
      forall i | 0 <= i < MAX_SOCKETS && i != s && socks[i] != null
        ensures socks[i] != x && socks[i].Value() == old(socks[i].Value()) && socks[i].Eps()
        ensures socks[i].Owned() == old(socks[i].Owned()) && socks[i].Owned() !! x.Owned()
      {
        if i < s { assert old(socks[i].Owned() !! x.Owned()); } else { assert old(x.Owned() !! socks[i].Owned()); }
      }
      assert State().socks == before.socks[s := Some(x.Value())];
    }

    /** As long as the socket is there, the section is a step of the table. */
    method AtSocket(s: nat, step: M.Step) returns (ok: bool)
      requires Valid() && s < MAX_SOCKETS && socks[s] != null && M.Enabled(socks[s].Value(), step) && !step.Term?
      modifies socks[s], socks[s].eps, socks[s].sdeps
      ensures Whole() && Apply(old(State()), On(s, step)) == if ok then Ok(State()) else Refused
      ensures !ok ==> State() == old(State())
    {
      assert State().socks[s] == Some(socks[s].Value());
      ok := Section(s, step);
    }

    /** nn_socket. */
    method Create(stops: bool) returns (ok: bool)
      requires Valid()
      modifies `nsocks, socks
      ensures Whole() && Apply(old(State()), Socket(stops)) == if ok then Ok(State()) else Refused
      ensures !ok ==> State() == old(State())
    {
      if nsocks < MAX_SOCKETS { OpenKeeps(State(), M.Fresh(stops)); }
      ok := Fill(stops);
    }

    method Fill(stops: bool) returns (ok: bool)
      requires Whole() && Sized() && nsocks <= MAX_SOCKETS
      modifies `nsocks, socks
      ensures Whole() && ok == (old(State()).nsocks < MAX_SOCKETS)
      ensures State() == if ok then Open(old(State()), M.Fresh(stops)) else old(State())
    {
      ghost var before, was := State(), socks[..];
      var r, sock := CreateSocket(stops);
      ok := r.Some?;
      forall i | 0 <= i < MAX_SOCKETS && Some(i) != r
        ensures socks[i] == was[i] && ValueOf(socks[i]) == before.socks[i]
        ensures socks[i] != null ==> socks[i].Owned() == old(socks[i].Owned()) && socks[i].Eps()
      {
        assert socks[..][i] == was[i];
      }
      if ok {
        assert socks[r.value] == sock;
        assert State().socks == before.socks[r.value := Some(M.Fresh(stops))];
      } else {
        assert State().socks == before.socks;
      }
    }

    /** nn_global_term and, at the next nn_socket, nn_global_init. */
    method Restart()
      requires socks.Length == unused.Length == MAX_SOCKETS && nsocks == 0
      requires forall i :: 0 <= i < MAX_SOCKETS ==> socks[i] == null
      modifies unused
      ensures State() == Fresh()
    {
      for i := 0 to MAX_SOCKETS
        invariant forall j :: 0 <= j < i ==> unused[j] == MAX_SOCKETS - j - 1
      {
        unused[i] := MAX_SOCKETS - i - 1;
      }
    }

    /** The slot is given back. */
    method Vacate(s: nat)
      requires Whole() && Sized() && s < MAX_SOCKETS && nsocks > 0
      modifies `nsocks, socks, unused
      ensures Whole() && State() == Shut(old(State()), s)
    {
      ghost var before, was := State(), socks[..];
      Release(s);
      forall i | 0 <= i < MAX_SOCKETS && i != s
        ensures socks[i] == was[i] && ValueOf(socks[i]) == before.socks[i]
        ensures socks[i] != null ==> socks[i].Owned() == old(socks[i].Owned()) && socks[i].Eps()
      {
        assert socks[..][i] == was[i];
      }
      assert State().socks == before.socks[s := None];
    }

    /** nn_close from nn_sock_term on, with nobody left in the socket. */
    method End(s: nat)
      requires Valid() && s < MAX_SOCKETS && socks[s] != null && M.Enabled(socks[s].Value(), M.Term)
      modifies `nsocks, socks, unused
      ensures Whole() && Apply(old(State()), On(s, M.Term)) == Ok(State())
    {
      assert State().socks[s] == Some(socks[s].Value());
      EndIs(State(), s);
      Vacate(s);
      RestartIfEmpty();
    }

    method RestartIfEmpty()
      requires Whole() && Partition(State())
      modifies unused
      ensures Whole() && State() == AfterClose(old(State()))
    {
      if nsocks == 0 {
        LiveNone(State().socks);
        forall i | 0 <= i < MAX_SOCKETS ensures socks[i] == null { assert State().socks[i].None?; }
        Restart();
      }
    }

    method OnSlot(s: int, step: M.Step) returns (ok: bool)
      requires Valid() && Enabled(State(), On(s, step))
      modifies this, socks, unused, Socks(), Eps()
      ensures Whole() && Apply(old(State()), On(s, step)) == if ok then Ok(State()) else Refused
      ensures !ok ==> State() == old(State())
    {
      if s < 0 || s >= MAX_SOCKETS || socks[s] == null {
        assert !Has(State(), s);
        return false;
      }
      assert State().socks[s] == Some(socks[s].Value());
      if step.Term? {
        End(s);
        return true;
      }
      assert forall ep :: ep in socks[s].Owned() ==> ep in Eps();
      ok := AtSocket(s, step);
    }

    /** Any critical section: on the objects it is the step of the table, and it leaves them sound unless it adds
        an endpoint too late. */
    method Perform(op: Op) returns (ok: bool)
      requires Valid() && Enabled(State(), op)
      modifies this, socks, unused, Socks(), Eps()
      ensures Whole() && Apply(old(State()), op) == if ok then Ok(State()) else Refused
      ensures !ok ==> State() == old(State())
      ensures ok ==> (Valid() <==> InTime(old(State()), op))
    {
      StepKeeps(State(), op);
      match op
      case Socket(stops) => ok := Create(stops);
      case On(s, step) => ok := OnSlot(s, step);
    }
  }

  lemma EndIs(t: Table, s: nat)
    requires Inv(t) && Has(t, s) && M.Enabled(t.socks[s].value, M.Term)
    ensures t.nsocks > 0 && Partition(Shut(t, s)) && Apply(t, On(s, M.Term)) == Ok(AfterClose(Shut(t, s)))
  {
    M.FreedClean(t.socks[s].value);
    ShutKeeps(t, s);
  }
}
