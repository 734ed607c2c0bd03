/**
 * The hand-off between the main thread and a database worker (Thread::spawn, LSql, EV::loop): a query
 * queue and a result queue under one mutex, two event flags and two condition variables. The protocol is
 * a state machine over both threads' program counters, interleaved in any order, without Thread::stop.
 */
module SqlWorker {

  // A query with a positive id wants its result delivered.
  datatype Query = Query(id: int, text: nat)

  // The worker. Top, Draining, Pushed, Marked and JobSet hold the mutex. Asleep is inside wait_for.
  datatype Worker =
    | Top
    | Asleep(notified: bool)
    | Pinging
    | WantLock
    | Draining
    | Executing(q: Query)
    | Executed(q: Query)
    | Pushed            // a result is queued, _main_ev not set yet
    | Marked            // _main_ev is set, _has_job not set yet
    | JobSet            // _has_job is set, the main thread not notified yet
    | Returned

  // The main thread: about to look at _has_job; inside wait_for; running timers and callbacks up to
  // ThreadMgr::main_routine; about to lock; holding the mutex; calling a result back without it.
  datatype Main = Check | Sleeping(notified: bool) | Running | WantResults | Collecting | Delivering(q: Query)

  datatype State = State(
    queue: seq<Query>,      // _query
    results: seq<Query>,    // _result
    ev: bool,               // _ev
    mainEv: bool,           // _main_ev
    hasJob: bool,           // _has_job
    worker: Worker,
    main: Main,
    pingFailed: bool,       // the last ping
    submitted: seq<Query>,  // what has been submitted, executed and delivered so far
    executed: seq<Query>,
    delivered: seq<Query>
  )

  const START := State([], [], false, false, false, Top, Running, false, [], [], [])

  predicate WorkerHolds(s: State) {
    s.worker.Top? || s.worker.Draining? || s.worker.Pushed? || s.worker.Marked? || s.worker.JobSet?
  }

  predicate MainHolds(s: State) { s.main.Collecting? }

  datatype Step =
    | DoSql(q: Query)                                                // main: LSql::do_sql
    | OtherJob                                                       // anybody else: EV::wake(true)
    | LookAtJob | WakeMain | LookAtMainEv | LockMain | PopResult | Deliver | ResultsDone   // main
    | LookAtEv | WakeWorker | Ping(ok: bool) | LockWorker | PopQuery | Execute | Relock
    | MarkMain | SetJob | NotifyMain | QueueDone | LockTop           // worker

  /** EV::wake wakes the main thread if it sleeps. */
  function Notified(m: Main): Main {
    if m.Sleeping? then Sleeping(true) else m
  }

  ghost predicate Next(s: State, step: Step, t: State) {
    match step
    case DoSql(q) =>
      && (s.main.Check? || s.main.Running? || s.main.Delivering?) && !WorkerHolds(s)
      && t == s.(queue := s.queue + [q], submitted := s.submitted + [q], ev := true,
                 worker := if s.worker.Asleep? then Asleep(true) else s.worker)
    case OtherJob => t == s.(hasJob := true, main := Notified(s.main))
    // EV::loop, the wait section; wait_for may also return on time-out or for no reason
    case LookAtJob =>
      s.main.Check? && t == if s.hasJob then s.(hasJob := false, main := Running) else s.(main := Sleeping(false))
    case WakeMain => s.main.Sleeping? && t == s.(hasJob := false, main := Running)
    // ThreadMgr::main_routine and LSql::main_routine
    case LookAtMainEv =>
      s.main.Running? && t == s.(mainEv := false, main := if s.mainEv then WantResults else Check)
    case LockMain => s.main.WantResults? && !WorkerHolds(s) && t == s.(main := Collecting)
    case PopResult =>
      s.main.Collecting? && s.results != [] && t == s.(results := s.results[1..], main := Delivering(s.results[0]))
    case Deliver =>
      s.main.Delivering? && t == s.(delivered := s.delivered + [s.main.q], main := WantResults)
    case ResultsDone => s.main.Collecting? && s.results == [] && t == s.(main := Check)
    // Thread::spawn
    case LookAtEv => s.worker.Top? && t == s.(ev := false, worker := if s.ev then Pinging else Asleep(false))
    case WakeWorker => s.worker.Asleep? && !MainHolds(s) && t == s.(worker := Pinging)
    case LockTop => s.worker.Returned? && !MainHolds(s) && t == s.(worker := Top)
    // LSql::routine
    case Ping(ok) =>
      s.worker.Pinging? && t == s.(pingFailed := !ok, worker := if ok then WantLock else Returned)
    case LockWorker => s.worker.WantLock? && !MainHolds(s) && t == s.(worker := Draining)
    case PopQuery =>
      s.worker.Draining? && s.queue != [] && t == s.(queue := s.queue[1..], worker := Executing(s.queue[0]))
    case Execute => s.worker.Executing? && t == s.(executed := s.executed + [s.worker.q], worker := Executed(s.worker.q))
    case Relock =>
      && s.worker.Executed? && !MainHolds(s)
      && t == if s.worker.q.id > 0 then s.(results := s.results + [s.worker.q], worker := Pushed) else s.(worker := Draining)
    case MarkMain => s.worker.Pushed? && t == s.(mainEv := true, worker := Marked)
    case SetJob => s.worker.Marked? && t == s.(hasJob := true, worker := JobSet)
    case NotifyMain => s.worker.JobSet? && t == s.(main := Notified(s.main), worker := Draining)
    case QueueDone => s.worker.Draining? && s.queue == [] && t == s.(worker := Returned)
  }

  /** The queries whose results are wanted. */
  function Wanted(qs: seq<Query>): seq<Query> {
    if qs == [] then []
    else
      var last := qs[|qs| - 1];
      Wanted(qs[..|qs| - 1]) + if last.id > 0 then [last] else []
  }

  function InExecution(w: Worker): seq<Query> {
    if w.Executing? then [w.q] else []
  }

  function NotPushedYet(w: Worker): seq<Query> {
    if w.Executed? && w.q.id > 0 then [w.q] else []
  }

  function InDelivery(m: Main): seq<Query> {
    if m.Delivering? then [m.q] else []
  }

  /** Every query is in one place, and the places in order spell out what was submitted. */
  ghost predicate InOrder(s: State) {
    QueriesInOrder(s) && ResultsInOrder(s)
  }

  ghost predicate QueriesInOrder(s: State) {
    s.submitted == s.executed + (InExecution(s.worker) + s.queue)
  }

  ghost predicate ResultsInOrder(s: State) {
    Wanted(s.executed) == s.delivered + (InDelivery(s.main) + (s.results + NotPushedYet(s.worker)))
  }

  /** The worker is idle only if there is nothing to do, it has been flagged, or its last ping failed. While it sleeps,
      it has been notified exactly if it has been flagged. */
  ghost predicate WorkerFlagged(s: State) {
    && (s.queue != [] && !s.ev && !s.pingFailed ==>
          !(s.worker.Top? || s.worker.Returned? || (s.worker.Asleep? && !s.worker.notified)))
    && (s.worker.Asleep? ==> (s.worker.notified <==> s.ev))
  }

  /** The main thread passes up results only if somebody is about to flag or wake it. */
  ghost predicate MainFlagged(s: State) {
    && (s.results != [] ==>
          s.mainEv || s.main.WantResults? || s.main.Collecting? || s.main.Delivering? || s.worker.Pushed?)
    && (s.mainEv ==> s.hasJob || s.worker.Marked? || s.main.Running?)
    && (s.hasJob && s.main.Sleeping? ==> s.main.notified || s.worker.JobSet?)
  }

  ghost predicate Inv(s: State) {
    InOrder(s) && WorkerFlagged(s) && MainFlagged(s) && !(WorkerHolds(s) && MainHolds(s))
  }

  lemma WantedSnoc(qs: seq<Query>, q: Query)
    ensures Wanted(qs + [q]) == Wanted(qs) + if q.id > 0 then [q] else []
  {
    assert (qs + [q])[..|qs|] == qs;
  }

  lemma NextKeepsQueries(s: State, step: Step, t: State)
    requires QueriesInOrder(s) && Next(s, step, t)
    ensures QueriesInOrder(t)
  {
    hide Wanted;
    match step
    case DoSql(q) =>
      assert InExecution(s.worker) + (s.queue + [q]) == (InExecution(s.worker) + s.queue) + [q];
      assert s.executed + ((InExecution(s.worker) + s.queue) + [q]) == s.submitted + [q];
    case PopQuery =>
      assert [s.queue[0]] + s.queue[1..] == [] + s.queue;
    case Execute =>
      assert (s.executed + [s.worker.q]) + ([] + s.queue) == s.executed + ([s.worker.q] + s.queue);
    case _ =>
  }

  lemma ExecuteKeepsResults(s: State, t: State)
    requires ResultsInOrder(s) && Next(s, Execute, t)
    ensures ResultsInOrder(t)
  {
    WantedSnoc(s.executed, s.worker.q);
    hide Wanted;
    var late := NotPushedYet(t.worker);
    var before := InDelivery(s.main) + (s.results + []);
    assert InDelivery(s.main) + (s.results + late) == before + late;
    assert s.delivered + (before + late) == (s.delivered + before) + late;
  }

  lemma RelockKeepsResults(s: State, t: State)
    requires ResultsInOrder(s) && Next(s, Relock, t)
    ensures ResultsInOrder(t)
  {
    hide Wanted;
    assert s.results + NotPushedYet(s.worker) == t.results + NotPushedYet(t.worker);
  }

  lemma HeadSplit(a: seq<Query>, b: seq<Query>)
    requires a != []
    ensures [a[0]] + (a[1..] + b) == a + b == [] + (a + b)
  {
    assert a == [a[0]] + a[1..];
  }

  lemma PopKeepsResults(s: State, t: State)
    requires ResultsInOrder(s) && Next(s, PopResult, t)
    ensures ResultsInOrder(t)
  {
    hide Wanted;
    HeadSplit(s.results, NotPushedYet(s.worker));
  }

  lemma DeliverKeepsResults(s: State, t: State)
    requires ResultsInOrder(s) && Next(s, Deliver, t)
    ensures ResultsInOrder(t)
  {
    hide Wanted;
    var rest := s.results + NotPushedYet(s.worker);
    assert (s.delivered + [s.main.q]) + rest == s.delivered + ([s.main.q] + rest);
  }

  lemma NextKeepsResults(s: State, step: Step, t: State)
    requires ResultsInOrder(s) && Next(s, step, t)
    ensures ResultsInOrder(t)
  {
    hide Wanted;
    match step
    case Execute =>
      ExecuteKeepsResults(s, t);
    case Relock =>
      RelockKeepsResults(s, t);
    case PopResult =>
      PopKeepsResults(s, t);
    case Deliver =>
      DeliverKeepsResults(s, t);
    case _ =>
  }

  lemma NextKeepsWorkerFlagged(s: State, step: Step, t: State)
    requires WorkerFlagged(s) && Next(s, step, t)
    ensures WorkerFlagged(t)
  {
  }

  lemma NextKeepsMainFlagged(s: State, step: Step, t: State)
    requires MainFlagged(s) && Next(s, step, t)
    ensures MainFlagged(t)
  {
  }

  /** Every step keeps the invariant. */
  lemma NextKeepsInv(s: State, step: Step, t: State)
    requires Inv(s) && Next(s, step, t)
    ensures Inv(t)
  {
    NextKeepsQueries(s, step, t);
    NextKeepsResults(s, step, t);
    NextKeepsWorkerFlagged(s, step, t);
    NextKeepsMainFlagged(s, step, t);
    hide QueriesInOrder;
    hide ResultsInOrder;
    hide WorkerFlagged;
    hide MainFlagged;
  }

  ghost predicate IsRun(states: seq<State>, steps: seq<Step>) {
    && |states| == |steps| + 1 && states[0] == START
    && forall i | 0 <= i < |steps| :: Next(states[i], steps[i], states[i + 1])
  }

  lemma {:induction false} RunKeepsInv(states: seq<State>, steps: seq<Step>, i: nat)
    requires IsRun(states, steps) && i < |states|
    ensures Inv(states[i])
  {
    if i > 0 {
      RunKeepsInv(states, steps, i - 1);
      NextKeepsInv(states[i - 1], steps[i - 1], states[i]);
    }
  }

  /** In every run, queries run once each in the order of submission, and the results that are wanted are
      delivered once each in that order. */
  lemma RunsInOrder(states: seq<State>, steps: seq<Step>, i: nat)
    requires IsRun(states, steps) && i < |states|
    ensures states[i].executed <= states[i].submitted
    ensures states[i].delivered <= Wanted(states[i].executed)
    ensures |states[i].submitted| == |states[i].executed| + |InExecution(states[i].worker)| + |states[i].queue|
  {
    RunKeepsInv(states, steps, i);
  }

  /** In every run, the worker never sleeps on queued work without having been notified, unless its last
      ping failed; and the main thread never sleeps on results without having been notified, unless the
      worker is on its way to do so. */
  lemma NoLostWakeUp(states: seq<State>, steps: seq<Step>, i: nat)
    requires IsRun(states, steps) && i < |states|
    ensures var s := states[i];
            s.worker.Asleep? && s.queue != [] ==> s.worker.notified || s.pingFailed
    ensures var s := states[i];
            s.main.Sleeping? && s.results != [] ==>
              s.main.notified || s.worker.Pushed? || s.worker.Marked? || s.worker.JobSet?
  {
    RunKeepsInv(states, steps, i);
  }

  /** In every run, whenever the worker looks at its flag, it goes to sleep on queued work if and only if it has not
      been flagged and its last ping failed. */
  lemma StrandedExactly(states: seq<State>, steps: seq<Step>, i: nat)
    requires IsRun(states, steps) && i < |steps| && steps[i].LookAtEv?
    ensures var s, t := states[i], states[i + 1];
            t.worker == Asleep(false) && t.queue != [] <==> s.queue != [] && !s.ev && s.pingFailed
  {
    RunKeepsInv(states, steps, i);
    assert Next(states[i], steps[i], states[i + 1]);
  }

  /** In every run, while the worker sleeps it is left with queued work if and only if there is some and nobody has
      submitted any since it went to sleep; its last ping failed then. */
  lemma StrandedWhileAsleep(states: seq<State>, steps: seq<Step>, i: nat)
    requires IsRun(states, steps) && i < |states| && states[i].worker.Asleep?
    ensures var s := states[i];
            && (s.queue != [] && !s.worker.notified <==> s.queue != [] && !s.ev)
            && (s.queue != [] && !s.ev ==> s.pingFailed)
  {
    RunKeepsInv(states, steps, i);
  }

  /** In every run, once both threads sleep undisturbed everything submitted has been executed, and every
      wanted result delivered, unless the last ping failed; what is left then is what is queued. */
  lemma QuietMeansDone(states: seq<State>, steps: seq<Step>, i: nat)
    requires IsRun(states, steps) && i < |states|
    requires states[i].worker == Asleep(false) && states[i].main == Sleeping(false)
    ensures states[i].pingFailed || states[i].executed == states[i].submitted
    ensures states[i].submitted == states[i].executed + states[i].queue
    ensures states[i].delivered == Wanted(states[i].executed)
  {
    RunKeepsInv(states, steps, i);
  }

  /** A step that neither thread needs anything new for: nothing is submitted, pings succeed, and a wait ends only by a
      notification or, for the worker, by its time-out while there is something to do. */
  predicate Undisturbed(s: State, step: Step) {
    match step
    case DoSql(_) => false
    case OtherJob => false
    case Ping(ok) => ok
    case WakeMain => s.main == Sleeping(true)
    case WakeWorker => s.worker == Asleep(true) || s.queue != []
    case _ => true
  }

  /** Steps that the worker has before it, one query aside. */
  function WorkerSteps(s: State): nat {
    match s.worker
    case Asleep(notified) => if notified || s.queue != [] then 6 else 0
    case Top => if s.queue != [] && !s.ev then 7 else 1
    case Returned => if s.queue != [] && !s.ev then 8 else 2
    case Draining => 3
    case WantLock => 4
    case Pinging => 5
    case JobSet => 7
    case Marked => 10
    case Pushed => 13
    case Executed(_) => 17
    case Executing(_) => 18
  }

  function MainSteps(s: State): nat {
    match s.main
    case Sleeping(notified) => if notified then 3 else 0
    case Check => 1
    case Running => 2
    case Collecting => 2
    case WantResults => 3
    case Delivering(_) => 4
  }

  /** A bound for the undisturbed steps from here on. */
  function Work(s: State): nat {
    16 * |s.queue| + 3 * |s.results| + WorkerSteps(s) + MainSteps(s)
    + (if s.ev then 5 else 0) + (if s.mainEv then 2 else 0) + if s.hasJob then 2 else 0
  }

  lemma StepsWork(s: State, step: Step, t: State)
    requires Next(s, step, t) && Undisturbed(s, step)
    ensures Work(t) < Work(s) && t.submitted == s.submitted
  {
    if OfMain(step) {
      MainStepsWork(s, step, t);
    } else {
      WorkerStepsWork(s, step, t);
    }
  }

  predicate OfMain(step: Step) {
    match step
    case LookAtJob | WakeMain | LookAtMainEv | LockMain | PopResult | Deliver | ResultsDone => true
    case _ => false
  }

  lemma MainStepsWork(s: State, step: Step, t: State)
    requires Next(s, step, t) && Undisturbed(s, step) && OfMain(step)
    ensures Work(t) < Work(s) && t.submitted == s.submitted
  {
    assert WorkerSteps(t) == WorkerSteps(s);
    hide WorkerSteps;
  }

  lemma WorkerStepsWork(s: State, step: Step, t: State)
    requires Next(s, step, t) && Undisturbed(s, step) && !OfMain(step)
    ensures Work(t) < Work(s) && t.submitted == s.submitted
  {
    assert MainSteps(t) <= MainSteps(s) + if step.NotifyMain? then 3 else 0;
    hide MainSteps;
  }

  ghost predicate Quiet(s: State) {
    s.worker == Asleep(false) && s.main == Sleeping(false) && s.queue == []
  }

  /** Unless both threads sleep and nothing is queued, one of them can go on by itself. */
  lemma NotStuck(s: State) returns (step: Step, t: State)
    requires Inv(s) && !Quiet(s)
    ensures Next(s, step, t) && Undisturbed(s, step)
  {
    if s.main == Sleeping(false) || (s.main.WantResults? && WorkerHolds(s)) {
      step, t := WorkerGoesOn(s);
    } else {
      step, t := MainGoesOn(s);
    }
  }

  lemma WorkerGoesOn(s: State) returns (step: Step, t: State)
    requires !MainHolds(s) && !(s.worker == Asleep(false) && s.queue == [])
    ensures Next(s, step, t) && Undisturbed(s, step)
  {
    match s.worker
    case Asleep(_) => step, t := WakeWorker, s.(worker := Pinging);
    case Top => step, t := LookAtEv, s.(ev := false, worker := if s.ev then Pinging else Asleep(false));
    case Returned => step, t := LockTop, s.(worker := Top);
    case Pinging => step, t := Ping(true), s.(pingFailed := false, worker := WantLock);
    case WantLock => step, t := LockWorker, s.(worker := Draining);
    case Draining =>
      if s.queue == [] {
        step, t := QueueDone, s.(worker := Returned);
      } else {
        step, t := PopQuery, s.(queue := s.queue[1..], worker := Executing(s.queue[0]));
      }
    case Executing(q) => step, t := Execute, s.(executed := s.executed + [q], worker := Executed(q));
    case Executed(q) =>
      step := Relock;
      t := if q.id > 0 then s.(results := s.results + [q], worker := Pushed) else s.(worker := Draining);
    case Pushed => step, t := MarkMain, s.(mainEv := true, worker := Marked);
    case Marked => step, t := SetJob, s.(hasJob := true, worker := JobSet);
    case JobSet => step, t := NotifyMain, s.(main := Notified(s.main), worker := Draining);
  }

  lemma MainGoesOn(s: State) returns (step: Step, t: State)
    requires s.main != Sleeping(false) && (s.main.WantResults? ==> !WorkerHolds(s))
    ensures Next(s, step, t) && Undisturbed(s, step)
  {
    match s.main
    case Sleeping(_) => step, t := WakeMain, s.(hasJob := false, main := Running);
    case Check =>
      step := LookAtJob;
      t := if s.hasJob then s.(hasJob := false, main := Running) else s.(main := Sleeping(false));
    case Running => step, t := LookAtMainEv, s.(mainEv := false, main := if s.mainEv then WantResults else Check);
    case WantResults => step, t := LockMain, s.(main := Collecting);
    case Collecting =>
      if s.results == [] {
        step, t := ResultsDone, s.(main := Check);
      } else {
        step, t := PopResult, s.(results := s.results[1..], main := Delivering(s.results[0]));
      }
    case Delivering(q) => step, t := Deliver, s.(delivered := s.delivered + [q], main := WantResults);
  }

  /** Steps of both threads from a state on, in any order, with nothing from outside. */
  ghost predicate UndisturbedRun(states: seq<State>, steps: seq<Step>) {
    && |states| == |steps| + 1
    && forall i | 0 <= i < |steps| :: Next(states[i], steps[i], states[i + 1]) && Undisturbed(states[i], steps[i])
  }

  ghost predicate CanGoOn(s: State) {
    exists step, t :: Next(s, step, t) && Undisturbed(s, step)
  }

  /** All that has been submitted is executed, and all that is wanted of it delivered. */
  predicate AllDone(s: State) {
    s.executed == s.submitted && s.delivered == Wanted(s.submitted)
  }

  /** Left to themselves, the two threads come to an end in every order of their steps; and it is when everything
      submitted has been executed and everything wanted delivered that neither can go on. */
  lemma {:induction false} UndisturbedEnds(states: seq<State>, steps: seq<Step>)
    requires UndisturbedRun(states, steps) && Inv(states[0])
    ensures |steps| <= Work(states[0])
    ensures var t := states[|steps|];
            && Inv(t) && t.submitted == states[0].submitted
            && (CanGoOn(t) <==> !Quiet(t)) && (Quiet(t) ==> AllDone(t))
    decreases |steps|
  {
    if steps == [] {
      var t := states[0];
      if Quiet(t) {
        QuietIsDone(t);
      } else {
        var step, t' := NotStuck(t);
      }
    } else {
      var first, second := states[0], states[1];
      assert Next(first, steps[0], second) && Undisturbed(first, steps[0]);
      StepsWork(first, steps[0], second);
      NextKeepsInv(first, steps[0], second);
      assert UndisturbedRun(states[1..], steps[1..]) by {
        forall i | 0 <= i < |steps[1..]|
          ensures Next(states[1..][i], steps[1..][i], states[1..][i + 1]) && Undisturbed(states[1..][i], steps[1..][i])
        {
          assert Next(states[i + 1], steps[i + 1], states[i + 2]);
        }
      }
      UndisturbedEnds(states[1..], steps[1..]);
    }
  }

  lemma QuietIsDone(s: State)
    requires Inv(s) && Quiet(s)
    ensures AllDone(s)
  {
    assert s.results == [];
  }

  /** From every state of every run there is a way on which every query submitted so far is executed and every result
      wanted is delivered: stranded queries too, once a ping succeeds. */
  lemma {:induction false} AllGetsDone(s: State) returns (states: seq<State>, steps: seq<Step>)
    requires Inv(s)
    ensures UndisturbedRun(states, steps) && states[0] == s
    ensures var t := states[|steps|]; t.submitted == s.submitted && Quiet(t) && AllDone(t)
    decreases Work(s)
  {
    if Quiet(s) {
      QuietIsDone(s);
      states, steps := [s], [];
    } else {
      var step, t := NotStuck(s);
      StepsWork(s, step, t);
      NextKeepsInv(s, step, t);
      var ts, rest := AllGetsDone(t);
      states, steps := [s] + ts, [step] + rest;
      forall i | 0 <= i < |steps|
        ensures Next(states[i], steps[i], states[i + 1]) && Undisturbed(states[i], steps[i])
      {
        if i > 0 {
          assert Next(ts[i - 1], rest[i - 1], ts[i]);
        }
      }
    }
  }

  /** A failed ping does leave work behind: this run ends with a query queued and everybody asleep. */
  lemma FailedPingStrands(q: Query) returns (states: seq<State>, steps: seq<Step>)
    ensures IsRun(states, steps)
    ensures var s := states[|states| - 1];
            s.worker == Asleep(false) && s.main == Sleeping(false) && s.queue == [q] && s.executed == []
  {
    var s0 := START;
    var s1 := s0.(worker := Asleep(false));
    var s2 := s1.(queue := [q], submitted := [q], ev := true, worker := Asleep(true));
    var s3 := s2.(worker := Pinging);
    var s4 := s3.(pingFailed := true, worker := Returned);
    var s5 := s4.(worker := Top);
    var s6 := s5.(ev := false, worker := Pinging);
    var s7 := s6.(worker := Returned);
    var s8 := s7.(worker := Top);
    var s9 := s8.(worker := Asleep(false));
    var s10 := s9.(main := Check);
    var s11 := s10.(main := Sleeping(false));
    states := [s0, s1, s2, s3, s4, s5, s6, s7, s8, s9, s10, s11];
    steps := [LookAtEv, DoSql(q), WakeWorker, Ping(false), LockTop, LookAtEv, Ping(false), LockTop, LookAtEv,
              LookAtMainEv, LookAtJob];
    assert s0.queue + [q] == [q] && s0.submitted + [q] == [q];
  }
}
