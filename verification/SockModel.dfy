/** The life of a socket (core/sock.c with the holds of core/global.c), one critical section a step:
    users take and drop holds, endpoints come and go, and one nn_close stops it, waits and frees it. */
module SockModel {
  import opened Seqs

  /** NN_SOCK_STATE_*; INIT is left before nn_sock_init returns. */
  datatype State = Active | StoppingEps | Stopping | Fini

  /** Endpoints stand for themselves as their ids.  History: `ended` are the endpoints terminated and
      freed, `users` the API calls that hold the socket, `closers` the calls inside nn_sock_term. */
  datatype Sock = Sock(
    state: State,
    stops: bool,             // the protocol has a stop function
    stopAsked: bool,         // it has been called and nn_sock_stopped has not
    eps: seq<nat>,
    sdeps: seq<nat>,
    eid: nat,                // the next endpoint's
    holds: int,
    termsem: nat,
    relesem: nat,
    ended: seq<nat>,
    users: nat,
    closers: nat)

  /** nn_sock_init. */
  function Fresh(stops: bool): Sock {
    Sock(Active, stops, false, [], [], 1, 1, 0, 0, [], 0, 0)
  }

  datatype Step =
    | Hold                   // a user's nn_global_hold_socket
    | Rele                   // its nn_global_rele_socket
    | AddEp                  // nn_sock_add_ep by a user
    | RmEp(e: nat)           // nn_sock_rm_ep by a user
    | EpStopped(e: nat)      // NN_EP_STOPPED arrives
    | ProtoStopped           // NN_SOCK_ACTION_STOPPED arrives
    | Close                  // nn_close up to line 527
    | Term                   // nn_sock_term and the rest of nn_close

  /** Abort: an assertion fails or nn_fsm_bad_state is reached.  Refused: -EBADF or -EINVAL. */
  datatype Outcome = Abort | Refused | Ok(sock: Sock) | Freed

  /** Users call with a hold; an endpoint reports once, after it has been asked to stop; nn_sock_term
      goes on when both semaphores have been posted. */
  predicate Enabled(x: Sock, step: Step) {
    match step
    case Hold => true
    case Close => true
    case Rele => x.users > 0
    case AddEp => x.users > 0
    case RmEp(_) => x.users > 0
    case EpStopped(e) => e in x.sdeps
    case ProtoStopped => x.stopAsked
    case Term => x.closers > 0 && x.termsem > 0 && x.relesem > 0
  }

  /** nn_sock_rele. */
  function Drop(x: Sock): Sock {
    x.(holds := x.holds - 1, relesem := x.relesem + if x.holds == 1 then 1 else 0)
  }

  /** Label finish1. */
  function Finish1(x: Sock): Sock {
    x.(state := Fini, stopAsked := false, termsem := x.termsem + 1)
  }

  /** Label finish2. */
  function Finish2(x: Sock): Outcome {
    if x.sdeps != [] then Ok(x)
    else if x.eps != [] then Abort
    else if !x.stops then Ok(Finish1(x))
    else Ok(x.(state := Stopping, stopAsked := true))
  }

  function EndEp(x: Sock, e: nat): Sock {
    x.(sdeps := Erase(x.sdeps, e), ended := x.ended + [e])
  }

  /** nn_sock_stop, when the socket is active. */
  function Stop(x: Sock): Outcome {
    Finish2(x.(state := StoppingEps, sdeps := x.sdeps + x.eps, eps := []))
  }

  function Apply(x: Sock, step: Step): Outcome {
    match step
    case Hold => if x.state == Active then Ok(x.(holds := x.holds + 1, users := x.users + 1)) else Refused
    case Rele => if x.users == 0 then Refused else Ok(Drop(x).(users := x.users - 1))
    case AddEp => Ok(x.(eps := x.eps + [x.eid], eid := x.eid + 1))
    case RmEp(e) =>
      if e in x.eps then Ok(x.(eps := Erase(x.eps, e), sdeps := x.sdeps + [e])) else Refused
    case EpStopped(e) =>
      if x.state == Active then Ok(EndEp(x, e))
      else if x.state == StoppingEps then Finish2(EndEp(x, e))
      else Abort
    case ProtoStopped => if x.state == Stopping then Ok(Finish1(x)) else Abort
    case Close =>
      if x.state != Active then Refused
      else
        var r := Stop(x.(holds := x.holds + 1));
        if r.Ok? then Ok(Drop(Drop(r.sock)).(closers := x.closers + 1)) else r
    case Term => if x.sdeps != [] || x.eps != [] then Abort else Freed
  }

  // ---------------------------------------------------------------- what every step keeps

  /** The ids given out so far. */
  function Ids(eid: nat): seq<nat> {
    if eid <= 1 then [] else Ids(eid - 1) + [eid - 1]
  }

  ghost function All(eps: seq<nat>, sdeps: seq<nat>, ended: seq<nat>): multiset<nat> {
    multiset(eps) + multiset(sdeps) + multiset(ended)
  }

  /** Every endpoint ever created is in exactly one place: in use, stopping, or terminated once. */
  ghost predicate Conserved(x: Sock) {
    x.eid >= 1 && All(x.eps, x.sdeps, x.ended) == multiset(Ids(x.eid))
  }

  /** The holds are those of the users and, until nn_close, that of the creator; relesem has been posted
      once when they have come to zero; one nn_close is at work as soon as the socket is not active. */
  predicate Counted(x: Sock) {
    && x.holds == x.users + (if x.state == Active then 1 else 0)
    && x.relesem == (if x.holds == 0 then 1 else 0)
    && x.closers == (if x.state == Active then 0 else 1)
    && x.termsem == (if x.state == Fini then 1 else 0)
    && x.stopAsked == (x.state == Stopping)
  }

  /** The shutdown waits in STOPPING_EPS exactly while an endpoint is stopping. */
  predicate Staged(x: Sock) {
    match x.state
    case Active => true
    case StoppingEps => x.sdeps != []
    case _ => x.sdeps == []
  }

  /** The part of the invariant without the endpoints' whereabouts. */
  predicate Phase(x: Sock) { Counted(x) && Staged(x) }

  /** All but the list of endpoints in use after the close. */
  ghost predicate Weak(x: Sock) { Conserved(x) && Phase(x) }

  /** A stopped socket has no endpoint in use. */
  predicate NoneLate(x: Sock) { x.state != Active ==> x.eps == [] }

  /** (An equation, so that the verifier does not take it apart in every goal.) */
  ghost predicate Inv(x: Sock) { (Weak(x) && NoneLate(x)) == true }

  lemma FreshInv(stops: bool)
    ensures Inv(Fresh(stops))
  {
  }

  lemma Moved(from: seq<nat>, onto: seq<nat>, e: nat)
    requires e in from
    ensures multiset(Erase(from, e)) + multiset(onto + [e]) == multiset(from) + multiset(onto)
  {
    EraseSpec(from, e);
    assert e in multiset(from);
  }

  lemma EndedAll(eps: seq<nat>, sdeps: seq<nat>, ended: seq<nat>, e: nat)
    requires e in sdeps
    ensures All(eps, Erase(sdeps, e), ended + [e]) == All(eps, sdeps, ended)
  {
    Moved(sdeps, ended, e);
    assert All(eps, sdeps, ended) == multiset(eps) + (multiset(sdeps) + multiset(ended));
  }

  lemma RemovedAll(eps: seq<nat>, sdeps: seq<nat>, ended: seq<nat>, e: nat)
    requires e in eps
    ensures All(Erase(eps, e), sdeps + [e], ended) == All(eps, sdeps, ended)
  {
    Moved(eps, sdeps, e);
  }

  lemma StoppedAll(eps: seq<nat>, sdeps: seq<nat>, ended: seq<nat>)
    ensures All([], sdeps + eps, ended) == All(eps, sdeps, ended)
  {
    assert multiset(sdeps + eps) == multiset(sdeps) + multiset(eps);
  }

  lemma AddedAll(eps: seq<nat>, sdeps: seq<nat>, ended: seq<nat>, e: nat)
    ensures All(eps + [e], sdeps, ended) == All(eps, sdeps, ended) + multiset{e}
  {
    assert multiset(eps + [e]) == multiset(eps) + multiset{e};
  }

  /** What a step does to the endpoints. */
  predicate Moves(x: Sock, y: Sock, step: Step) {
    match step
    case EpStopped(e) =>
      y.eps == x.eps && e in x.sdeps && y.sdeps == Erase(x.sdeps, e) && y.ended == x.ended + [e] && y.eid == x.eid
    case Close => y.eps == [] && y.sdeps == x.sdeps + x.eps && y.ended == x.ended && y.eid == x.eid
    case RmEp(e) =>
      e in x.eps && y.eps == Erase(x.eps, e) && y.sdeps == x.sdeps + [e] && y.ended == x.ended && y.eid == x.eid
    case AddEp => y.eps == x.eps + [x.eid] && y.sdeps == x.sdeps && y.ended == x.ended && y.eid == x.eid + 1
    case _ => y.eps == x.eps && y.sdeps == x.sdeps && y.ended == x.ended && y.eid == x.eid
  }

  lemma AddConserves(x: Sock, y: Sock)
    requires Conserved(x) && Moves(x, y, AddEp)
    ensures Conserved(y)
  {
    AddedAll(x.eps, x.sdeps, x.ended, x.eid);
    IdsNext(x.eid);
  }

  lemma IdsNext(eid: nat)
    requires eid >= 1
    ensures multiset(Ids(eid + 1)) == multiset(Ids(eid)) + multiset{eid}
  {
    assert multiset(Ids(eid) + [eid]) == multiset(Ids(eid)) + multiset{eid};
  }

  lemma MovesConserve(x: Sock, y: Sock, step: Step)
    requires Conserved(x) && Moves(x, y, step)
    ensures Conserved(y)
  {
    match step
    case EpStopped(e) => EndedAll(x.eps, x.sdeps, x.ended, e);
    case Close => StoppedAll(x.eps, x.sdeps, x.ended);
    case RmEp(e) => RemovedAll(x.eps, x.sdeps, x.ended, e);
    case AddEp => AddConserves(x, y);
    case _ =>
  }

  lemma ApplyMoves(x: Sock, step: Step)
    requires Enabled(x, step) && Apply(x, step).Ok?
    ensures Moves(x, Apply(x, step).sock, step)
  {
  }

  lemma ConservedKeeps(x: Sock, step: Step)
    requires Conserved(x) && Enabled(x, step) && Apply(x, step).Ok?
    ensures Conserved(Apply(x, step).sock)
  {
    ApplyMoves(x, step);
    MovesConserve(x, Apply(x, step).sock, step);
  }

  lemma PhaseKeeps(x: Sock, step: Step)
    requires Phase(x) && NoneLate(x) && Enabled(x, step)
    ensures !Apply(x, step).Abort?
    ensures Apply(x, step).Ok? ==> Phase(Apply(x, step).sock)
    ensures Apply(x, step).Ok? && (step == AddEp ==> x.state == Active) ==> NoneLate(Apply(x, step).sock)
  {
  }

  lemma LatePhaseKeeps(x: Sock, step: Step)
    requires Phase(x) && Enabled(x, step) && !step.RmEp? && Apply(x, step).Ok?
    ensures Phase(Apply(x, step).sock)
  {
  }

  /** Any step in any state that meets the invariant: no assertion fails, and the invariant is kept, except by an
      endpoint that is added to a socket that is no longer active; nn_sock_add_ep itself does not look. */
  lemma StepKeeps(x: Sock, step: Step)
    requires Inv(x) && Enabled(x, step)
    ensures !Apply(x, step).Abort?
    ensures Apply(x, step).Ok? ==> (Inv(Apply(x, step).sock) <==> (step == AddEp ==> x.state == Active))
  {
    PhaseKeeps(x, step);
    if step == AddEp {
      AddKeeps(x);
    } else if Apply(x, step).Ok? {
      ConservedKeeps(x, step);
    }
  }

  /** The socket is freed only when nobody holds it, and every endpoint it ever had has been terminated
      exactly once. */
  lemma FreedClean(x: Sock)
    requires Inv(x) && Enabled(x, Term)
    ensures Apply(x, Term).Freed?
    ensures x.state == Fini && x.users == 0 && x.holds == 0 && multiset(x.ended) == multiset(Ids(x.eid))
  {
  }

  /** From nn_close on, nobody gets a new hold, no other nn_close succeeds, and the holds only fall: so
      they reach zero once. */
  lemma ClosedForGood(x: Sock, step: Step)
    requires Weak(x) && Enabled(x, step) && x.state != Active && Apply(x, step).Ok?
    ensures var y := Apply(x, step).sock;
            && y.state != Active && y.closers == x.closers == 1 && step != Hold && step != Close
            && y.holds <= x.holds && y.relesem >= x.relesem
  {
  }

  lemma {:induction false} IdsCount(eid: nat, e: nat)
    requires eid >= 1
    ensures multiset(Ids(eid))[e] == if 1 <= e < eid then 1 else 0
  {
    if eid > 1 { IdsCount(eid - 1, e); }
  }

  /** An endpoint is in one list only, and once. */
  lemma Once(x: Sock, e: nat)
    requires Conserved(x)
    ensures e in x.eps ==> multiset(x.eps)[e] == 1 && e !in x.sdeps
    ensures e in x.sdeps ==> multiset(x.sdeps)[e] == 1 && e !in x.eps
  {
    IdsCount(x.eid, e);
    assert All(x.eps, x.sdeps, x.ended)[e] <= 1;
    assert (e in x.eps <==> e in multiset(x.eps)) && (e in x.sdeps <==> e in multiset(x.sdeps));
  }

  // ---------------------------------------------------------------- runs

  /** What a run of enabled steps leads to.  Steps that are refused change nothing. */
  function Run(x: Sock, steps: seq<Step>): Outcome
    decreases |steps|
  {
    if steps == [] then Ok(x)
    else if !Enabled(x, steps[0]) then Refused
    else
      match Apply(x, steps[0])
      case Abort => Abort
      case Freed => Freed
      case Refused => Run(x, steps[1..])
      case Ok(y) => Run(y, steps[1..])
  }

  /** No endpoint is added after the socket has been closed. */
  predicate AddsInTime(x: Sock, steps: seq<Step>)
    decreases |steps|
  {
    steps != [] && Enabled(x, steps[0]) ==>
      && (steps[0] == AddEp ==> x.state == Active)
      && match Apply(x, steps[0])
         case Ok(y) => AddsInTime(y, steps[1..])
         case Refused => AddsInTime(x, steps[1..])
         case _ => true
  }

  /** Under any interleaving of users, endpoint events and closes: no assertion ever fails. */
  lemma {:induction false} RunSafe(x: Sock, steps: seq<Step>)
    requires Inv(x) && AddsInTime(x, steps)
    ensures !Run(x, steps).Abort? && (Run(x, steps).Ok? ==> Inv(Run(x, steps).sock))
    decreases |steps|
  {
    if steps != [] && Enabled(x, steps[0]) {
      StepKeeps(x, steps[0]);
      match Apply(x, steps[0])
      case Ok(y) => RunSafe(y, steps[1..]);
      case Refused => RunSafe(x, steps[1..]);
      case _ =>
    }
  }

  // ---------------------------------------------------------------- an endpoint that comes too late

  /** Adding an endpoint keeps the invariant exactly when the socket is still active. */
  lemma AddKeeps(x: Sock)
    requires Inv(x) && Enabled(x, AddEp)
    ensures Inv(Apply(x, AddEp).sock) <==> x.state == Active
    ensures Weak(Apply(x, AddEp).sock)
  {
    ConservedKeeps(x, AddEp);
    LatePhaseKeeps(x, AddEp);
  }

  lemma RunStep(x: Sock, step: Step, steps: seq<Step>)
    requires Enabled(x, step) && Apply(x, step).Ok? && Run(Apply(x, step).sock, steps).Abort?
    ensures Run(x, [step] + steps).Abort?
  {
    assert ([step] + steps)[1..] == steps;
  }

  lemma LateEpStays(x: Sock, e: nat, step: Step)
    requires x.state != Active && e in x.eps && step != RmEp(e)
    ensures !Apply(x, step).Freed?
    ensures Apply(x, step).Ok? ==> Apply(x, step).sock.state != Active && e in Apply(x, step).sock.eps
  {
    if step.RmEp? {
      EraseSpec(x.eps, step.e);
      assert e in multiset(x.eps) && e in multiset(Erase(x.eps, step.e));
    }
  }

  /** nn_close has begun, and an endpoint has been added since.  Whatever happens, the close never completes
      unless a user removes that endpoint again: the run fails an assertion, or the endpoint is still there. */
  lemma {:induction false} LateEpStrands(x: Sock, e: nat, steps: seq<Step>)
    requires x.state != Active && e in x.eps && RmEp(e) !in steps
    ensures !Run(x, steps).Freed? && (Run(x, steps).Ok? ==> e in Run(x, steps).sock.eps)
    decreases |steps|
  {
    if steps != [] {
      LateEpStays(x, e, steps[0]);
      match Apply(x, steps[0])
      case Ok(y) => LateEpStrands(y, e, steps[1..]);
      case Refused => LateEpStrands(x, e, steps[1..]);
      case _ =>
    }
  }

  /** And there is always a schedule that does end in the failed assertion (sock.c:898, or sock.c:240 inside
      nn_close): the remaining users drop their holds and the endpoints and the protocol stop, with nothing
      else happening. */
  lemma {:induction false} LateEpAborts(x: Sock) returns (steps: seq<Step>)
    requires Weak(x) && x.state != Active && x.eps != []
    ensures Run(x, steps).Abort? && AddEp !in steps
    decreases x.users, |x.sdeps|, if x.state == Stopping then 1 else 0
  {
    var step := if x.users > 0 then Rele
                else match x.state
                     case StoppingEps => EpStopped(x.sdeps[0])
                     case Stopping => ProtoStopped
                     case _ => Term;
    var r := Apply(x, step);
    if r.Abort? {
      steps := [step];
    } else {
      ConservedKeeps(x, step);
      LatePhaseKeeps(x, step);
      steps := LateEpAborts(r.sock);
      RunStep(x, step, steps);
      steps := [step] + steps;
    }
  }

  /** So the race is real: a user that holds the socket, a close, and then the user's nn_bind or
      nn_connect, abort the process. */
  lemma LateAddAborts(stops: bool) returns (steps: seq<Step>)
    ensures Run(Fresh(stops), [Hold] + ([Close] + ([AddEp] + steps))).Abort? && AddEp !in steps
  {
    var x := Fresh(stops);
    var x1, x2, x3 := LateAdd(stops);
    steps := LateEpAborts(x3);
    RunStep(x2, AddEp, steps);
    RunStep(x1, Close, [AddEp] + steps);
    RunStep(x, Hold, [Close] + ([AddEp] + steps));
  }

  lemma LateAdd(stops: bool) returns (x1: Sock, x2: Sock, x3: Sock)
    ensures Weak(x3) && x3.state != Active && x3.eps != [] && x2.users > 0
    ensures Apply(Fresh(stops), Hold) == Ok(x1) && Apply(x1, Close) == Ok(x2) && Apply(x2, AddEp) == Ok(x3)
  {
    x1 := HoldGives(stops);
    x2 := CloseGives(x1);
    x3 := AddGives(x2);
    OneEp(x3);
  }

  lemma HoldGives(stops: bool) returns (x: Sock)
    ensures Apply(Fresh(stops), Hold) == Ok(x) && x == Sock(Active, stops, false, [], [], 1, 2, 0, 0, [], 1, 0)
  {
    x := Sock(Active, stops, false, [], [], 1, 2, 0, 0, [], 1, 0);
  }

  /** A close of a socket with one user and without endpoints. */
  lemma CloseGives(x: Sock) returns (y: Sock)
    requires x == Sock(Active, x.stops, false, [], [], 1, 2, 0, 0, [], 1, 0)
    ensures Apply(x, Close) == Ok(y)
    ensures y == Sock(if x.stops then Stopping else Fini, x.stops, x.stops, [], [], 1, 1,
                      if x.stops then 0 else 1, 0, [], 1, 1)
  {
    y := Sock(if x.stops then Stopping else Fini, x.stops, x.stops, [], [], 1, 1,
              if x.stops then 0 else 1, 0, [], 1, 1);
    assert x.sdeps + x.eps == [];
  }

  lemma AddGives(x: Sock) returns (y: Sock)
    requires x == Sock(if x.stops then Stopping else Fini, x.stops, x.stops, [], [], 1, 1,
                       if x.stops then 0 else 1, 0, [], 1, 1)
    ensures Apply(x, AddEp) == Ok(y) && y == x.(eps := [1], eid := 2) && Phase(y)
  {
    y := x.(eps := [1], eid := 2);
  }

  lemma OneEp(x: Sock)
    requires x.eps == [1] && x.sdeps == [] && x.ended == [] && x.eid == 2
    ensures Conserved(x)
  {
    assert Ids(2) == Ids(1) + [1] == [1];
    assert All([1], [], []) == multiset([1]);
  }
}
