/** aio/timer.c with the life cycle of aio/fsm.c and the two things a worker thread does for it: it
    executes the tasks queued by nn_worker_execute in order, and it fires an armed timer.  The
    worker's own source is not part of this model. */
module TimerModel {

  /** NN_FSM_STATE_*. */
  datatype Life = Idle | Active | Stopping

  datatype Task = StartTask | StopTask

  /** `life` is fsm.state, `state` the timer's own state; `tasks` are queued at the worker, `armed`
      says whether the worker has the timer in its timer set. */
  datatype Timer = Timer(life: Life, state: Life, timeout: int, tasks: seq<Task>, armed: bool)

  /** What the owner of the timer is told within the same critical section. */
  datatype Event = Nothing | Timeout | Stopped

  datatype Result = Abort | Ok(timer: Timer, event: Event)

  const FRESH := Timer(Idle, Idle, -1, [], false)

  /** nn_worker_execute: a task that is queued already must not be queued again. */
  function Execute(t: Timer, k: Task): Result {
    if k in t.tasks then Abort else Ok(t.(tasks := t.tasks + [k]), Nothing)
  }

  /** nn_timer_isidle; the STOPPED event is never queued between two critical sections. */
  predicate IsIdle(t: Timer) { t.life == Idle }

  /** nn_timer_start. */
  function Start(t: Timer, timeout: int): Result {
    if timeout < 0 || !IsIdle(t) || t.state != Idle then Abort
    else Execute(t.(timeout := timeout, state := Active, life := Active), StartTask)
  }

  /** nn_timer_stop: nothing happens unless the machine is active. */
  function Stop(t: Timer): Result {
    if t.life != Active then Ok(t, Nothing)
    else Execute(t.(life := Stopping, state := Stopping), StopTask)
  }

  /** The worker executes its first task. */
  function RunTask(t: Timer): Result
    requires t.tasks != []
  {
    var k := t.tasks[0];
    var t1 := t.(tasks := t.tasks[1..]);
    if t.life == Stopping then
      if t.state != Stopping then Abort
      else if k != StopTask then Ok(t1, Nothing)
      else Ok(t1.(armed := false, state := Idle, life := Idle), Stopped)
    else if t.state != Active || k != StartTask || t.timeout < 0 then Abort
    else Ok(t1.(armed := true, timeout := -1), Nothing)
  }

  /** The worker's timer expires. */
  function Expire(t: Timer): Result
    requires t.armed
  {
    var t1 := t.(armed := false);
    if t.life == Stopping then (if t.state != Stopping then Abort else Ok(t1, Nothing))
    else if t.state != Active || t.timeout != -1 then Abort
    else Ok(t1, Timeout)
  }

  /** Between two critical sections. */
  predicate Inv(t: Timer) {
    && t.state == t.life
    && match t.life
       case Idle => t.tasks == [] && !t.armed
       case Active =>
         || (t.tasks == [StartTask] && t.timeout >= 0 && !t.armed)
         || (t.tasks == [] && t.timeout == -1)
       case Stopping => (t.tasks == [StartTask, StopTask] && !t.armed) || t.tasks == [StopTask]
  }

  lemma StartKeeps(t: Timer, timeout: int)
    requires Inv(t) && t.life == Idle
    ensures Start(t, timeout).Ok? <==> timeout >= 0
    ensures timeout >= 0 ==> Inv(Start(t, timeout).timer) && Start(t, timeout).timer.life == Active
  {
  }

  lemma StopKeeps(t: Timer)
    requires Inv(t)
    ensures Stop(t).Ok? && Inv(Stop(t).timer) && Stop(t).event == Nothing
    ensures Stop(t).timer.life == if t.life == Active then Stopping else t.life
  {
    assert [StartTask] + [StopTask] == [StartTask, StopTask];
  }

  /** Every stop is followed by exactly one STOPPED, and no timeout is reported once the timer has
      been told to stop. */
  lemma RunTaskKeeps(t: Timer)
    requires Inv(t) && t.tasks != []
    ensures RunTask(t).Ok? && Inv(RunTask(t).timer)
    ensures RunTask(t).event != Timeout
    ensures RunTask(t).event == Stopped <==> t.life == Stopping && RunTask(t).timer.life == Idle
    ensures RunTask(t).event == Nothing ==> RunTask(t).timer.life == t.life
  {
  }

  lemma ExpireKeeps(t: Timer)
    requires Inv(t) && t.armed
    ensures Expire(t).Ok? && Inv(Expire(t).timer)
    ensures Expire(t).timer.life == t.life && Expire(t).event == (if t.life == Active then Timeout else Nothing)
  {
  }

  /** A timer that is stopping becomes idle after at most two more tasks of the worker. */
  lemma StopsSoon(t: Timer)
    requires Inv(t) && t.life == Stopping
    ensures t.tasks != []
    ensures var t1 := RunTask(t).timer; t1.life == Idle || (t1.tasks != [] && RunTask(t1).event == Stopped)
  {
  }
}
