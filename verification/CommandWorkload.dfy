/**
 One command run in a background thread, as a transition system.

 Three parties touch the same fields without a lock: the controller thread, inside start() or
 stop(); the pool thread that runs the command; and the done-callback of each run, which the
 thread that completes (or cancels) the future executes. Each event below is one read or write of
 shared state, so a trace is one interleaving. Nothing bounds the number of runs: a stop()
 followed by a start() leaves an old run and its callback alive beside the new one.
 */
module CommandWorkload {
  import opened Common

  datatype Status = Running | Stopped | Completed | Error

  datatype CommandResult = CommandResult(returncode: int, stdout: string, stderr: string) {
    predicate Success() { returncode == 0 }
  }

  datatype Parsed = Parsed(value: string) | ParseRaised(message: string)

  /** What a subclass supplies: its empty result, parse_output and the text of a failed run. */
  datatype Config = Config(
    empty: string,
    maxWorkers: nat,
    parse: CommandResult -> Parsed,
    failureDetail: CommandResult -> string)

  /** How a run's future completed: a value, the exceptions the callback tells apart, or cancelled. */
  datatype Outcome = Value(value: string) | WorkloadCancelled | FutureCancelled | Raised(message: string)

  datatype Phase = Unsubmitted | Queued | Executing | Returned | Recorded | Done(outcome: Outcome)

  datatype Write = PutStatus(status: Status) | PutResult(result: string) | PutEnd

  /** A callback not yet attached, attached, or with this many of its writes made; it has fired after the last. */
  datatype Callback = Unregistered | Registered | Writing(made: nat)

  datatype Run = Run(phase: Phase, returned: Option<CommandResult>, callback: Callback)

  /** Where the controller thread is: outside, or inside a call with this many statements executed. */
  datatype Controller = Idle | Starting(step: nat) | Stopping(step: nat)

  datatype State = State(
    status: Status,
    result: string,
    commandResult: Option<CommandResult>,
    startTime: real,
    endTime: real,
    cancel: bool,
    completionFut: Option<nat>,
    runs: seq<Run>,
    controller: Controller,
    inCallback: Option<nat>,
    now: real)

  datatype Event =
    | StartCall
    | StopCall
    | ControllerStep
    | Tick(time: real)
    | Begin(run: nat)
    | RunRaises(run: nat, message: string)
    | CommandReturns(run: nat, commandResult: CommandResult)
    | Record(run: nat)
    | Decide(run: nat)
    | CallbackBegins(run: nat)
    | CallbackStep(run: nat)

  function Init(cfg: Config, now: real): State {
    State(Stopped, cfg.empty, None, 0.0, 0.0, false, None, [], Idle, None, now)
  }

  /** How many shared fields the done-callback writes: a cancelled future leaves the result alone. */
  function WriteCount(outcome: Outcome): nat {
    if outcome.FutureCancelled? then 2 else 3
  }

  /** The callback's writes in order; end_time comes first only when the run returned a value. */
  function CallbackWrite(cfg: Config, outcome: Outcome, i: nat): Write {
    match outcome
    case Value(v) => if i == 0 then PutEnd else if i == 1 then PutResult(v) else PutStatus(Completed)
    case WorkloadCancelled => if i == 0 then PutStatus(Stopped) else if i == 1 then PutResult(cfg.empty) else PutEnd
    case FutureCancelled => if i == 0 then PutStatus(Stopped) else PutEnd
    case Raised(m) => if i == 0 then PutStatus(Error) else if i == 1 then PutResult(m) else PutEnd
  }

  /** Which of the callback's writes is the one to the status. */
  function StatusWrite(outcome: Outcome): nat {
    if outcome.Value? then 2 else 0
  }

  /** How the run ends once its command result is recorded; only a failed command looks at the cancel flag. */
  function RunOutcome(cfg: Config, returned: CommandResult, cancel: bool): Outcome {
    if !returned.Success() then
      if cancel then WorkloadCancelled else Raised(cfg.failureDetail(returned))
    else
      match cfg.parse(returned)
      case Parsed(v) => Value(v)
      case ParseRaised(m) => Raised(m)
  }

  predicate Occupies(run: Run) {
    run.phase.Executing? || run.phase.Returned? || run.phase.Recorded?
  }

  /** How many pool threads are busy. */
  function Busy(runs: seq<Run>): nat {
    if runs == [] then 0 else Busy(runs[..|runs| - 1]) + if Occupies(Last(runs)) then 1 else 0
  }

  /** The writes this run's callback has still to make, once it is executing. */
  function WritesLeft(run: Run): int {
    if run.callback.Writing? && run.phase.Done? then WriteCount(run.phase.outcome) - run.callback.made else 0
  }

  predicate Fired(run: Run) {
    run.callback.Writing? && WritesLeft(run) <= 0
  }

  /** The controller executes a callback itself, and waits for it, when it finds or makes the future done. */
  predicate Blocked(s: State) {
    s.inCallback.Some? && s.inCallback.value < |s.runs| && !Fired(s.runs[s.inCallback.value])
  }

  predicate Enabled(cfg: Config, s: State, e: Event) {
    match e
    case StartCall => s.controller.Idle?
    case StopCall => s.controller.Idle?
    case ControllerStep => !s.controller.Idle? && !Blocked(s)
    case Tick(_) => true
    case Begin(r) =>
      && r < |s.runs| && s.runs[r].phase.Queued?
      && (forall j :: 0 <= j < r ==> !s.runs[j].phase.Queued?)
      && Busy(s.runs) < cfg.maxWorkers
    case RunRaises(r, _) => r < |s.runs| && s.runs[r].phase.Executing?
    case CommandReturns(r, _) => r < |s.runs| && s.runs[r].phase.Executing?
    case Record(r) => r < |s.runs| && s.runs[r].phase.Returned? && s.runs[r].returned.Some?
    case Decide(r) => r < |s.runs| && s.runs[r].phase.Recorded? && s.runs[r].returned.Some?
    case CallbackBegins(r) => r < |s.runs| && s.runs[r].phase.Done? && s.runs[r].callback.Registered?
    case CallbackStep(r) => r < |s.runs| && s.runs[r].phase.Done? && WritesLeft(s.runs[r]) > 0
  }

  function SetRun(s: State, r: nat, run: Run): State
    requires r < |s.runs|
  {
    s.(runs := s.runs[r := run])
  }

  /** Attach the callback; add_done_callback runs it at once when the future is already done. */
  function AddCallback(s: State, r: nat): State
    requires r < |s.runs|
  {
    var run := s.runs[r];
    if run.phase.Done? then
      SetRun(s, r, run.(callback := Writing(0))).(inCallback := Some(r))
    else
      SetRun(s, r, run.(callback := Registered))
  }

  /** Future.cancel(): only a queued run can be cancelled, and its callback then runs in this thread. */
  function CancelFuture(s: State): State {
    if s.completionFut.Some? && s.completionFut.value < |s.runs| && s.runs[s.completionFut.value].phase.Queued? then
      var r := s.completionFut.value;
      AddCallback(SetRun(s, r, s.runs[r].(phase := Done(FutureCancelled))), r)
    else
      s
  }

  function StartStep(cfg: Config, s: State, step: nat): State {
    var s' := s.(controller := Starting(step + 1));
    if step == 0 then s'.(cancel := false)
    else if step == 1 then s'.(startTime := s.now)
    else if step == 2 then s'.(status := Running)
    else if step == 3 then s'.(result := cfg.empty)
    else if step == 4 then s'.(commandResult := None)
    else if s.runs == [] then s'.(controller := Idle)
    else if step == 5 then
      var r := |s.runs| - 1;
      SetRun(s', r, s.runs[r].(phase := Queued)).(completionFut := Some(r))
    else if step == 6 then AddCallback(s', |s.runs| - 1)
    else s'.(controller := Idle, inCallback := None)
  }

  function StopStep(s: State, step: nat): State {
    var s' := s.(controller := Stopping(step + 1));
    if step == 0 then s'.(cancel := true)
    else if step == 1 then CancelFuture(s')
    else if step == 2 then s'.(status := Stopped)
    else if step == 3 then s'.(completionFut := None)
    else s'.(controller := Idle, inCallback := None)
  }

  function ApplyWrite(s: State, w: Write): State {
    match w
    case PutStatus(status) => s.(status := status)
    case PutResult(result) => s.(result := result)
    case PutEnd => s.(endTime := s.now)
  }

  function Apply(cfg: Config, s: State, e: Event): State
    requires Enabled(cfg, s, e)
  {
    match e
    case StartCall =>
      if s.status.Running? then s  // RuntimeError: already running
      else s.(controller := Starting(0), runs := s.runs + [Run(Unsubmitted, None, Unregistered)])
    case StopCall => s.(controller := Stopping(0))
    case ControllerStep =>
      if s.controller.Starting? then StartStep(cfg, s, s.controller.step) else StopStep(s, s.controller.step)
    case Tick(t) => s.(now := t)
    case Begin(r) => SetRun(s, r, s.runs[r].(phase := Executing))
    case RunRaises(r, m) => SetRun(s, r, s.runs[r].(phase := Done(Raised(m))))
    case CommandReturns(r, c) => SetRun(s, r, s.runs[r].(phase := Returned, returned := Some(c)))
    case Record(r) => SetRun(s, r, s.runs[r].(phase := Recorded)).(commandResult := s.runs[r].returned)
    case Decide(r) =>
      SetRun(s, r, s.runs[r].(phase := Done(RunOutcome(cfg, s.runs[r].returned.value, s.cancel))))
    case CallbackBegins(r) =>
      SetRun(s, r, s.runs[r].(callback := Writing(0)))
    case CallbackStep(r) =>
      var made := s.runs[r].callback.made;
      ApplyWrite(SetRun(s, r, s.runs[r].(callback := Writing(made + 1))),
                 CallbackWrite(cfg, s.runs[r].phase.outcome, made))
  }

  predicate Trace(cfg: Config, s: State, es: seq<Event>)
    decreases es
  {
    es == [] || (Enabled(cfg, s, es[0]) && Trace(cfg, Apply(cfg, s, es[0]), es[1..]))
  }

  function Final(cfg: Config, s: State, es: seq<Event>): State
    requires Trace(cfg, s, es)
    decreases es
  {
    if es == [] then s else Final(cfg, Apply(cfg, s, es[0]), es[1..])
  }

  // ---------------------------------------------------------------------------------------------
  // What every interleaving keeps

  /** The callback has not made its status write yet. */
  predicate StatusPending(run: Run) {
    !run.callback.Writing? || (run.phase.Done? && run.callback.made <= StatusWrite(run.phase.outcome))
  }

  ghost predicate RunOk(cfg: Config, run: Run) {
    && (run.callback.Writing? ==> run.phase.Done? && WritesLeft(run) >= 0)
    && (run.phase.Returned? || run.phase.Recorded? ==> run.returned.Some?)
    && (run.phase.Done? && run.phase.outcome.Value? ==>
          && run.returned.Some? && run.returned.value.Success()
          && cfg.parse(run.returned.value) == Parsed(run.phase.outcome.value))
  }

  /** Only the run a start() in progress has just created can be unsubmitted or without a callback. */
  ghost predicate Settled(s: State, r: nat)
    requires r < |s.runs|
  {
    && (s.runs[r].phase.Unsubmitted? <==> r == |s.runs| - 1 && s.controller.Starting? && s.controller.step <= 5)
    && (s.runs[r].callback.Unregistered? <==> r == |s.runs| - 1 && s.controller.Starting? && s.controller.step <= 6)
  }

  ghost predicate Inv(cfg: Config, s: State) {
    && (s.controller.Starting? ==> s.controller.step <= 7 && s.runs != [])
    && (s.controller.Stopping? ==> s.controller.step <= 4)
    && (forall r :: 0 <= r < |s.runs| ==> RunOk(cfg, s.runs[r]) && Settled(s, r))
    && (s.controller.Idle? ==> s.inCallback.None?)
    && (s.inCallback.Some? ==> s.inCallback.value < |s.runs| && s.runs[s.inCallback.value].callback.Writing?)
    && (s.completionFut.Some? ==> s.completionFut.value < |s.runs|)
    && (s.status.Running? ==> s.runs != [] && StatusPending(Last(s.runs)))
  }

  /** The part of Inv about the runs, in the form a step that touches at most one run keeps. */
  lemma RunUpdateKeepsRuns(cfg: Config, s: State, s': State, r: nat)
    requires Inv(cfg, s) && r < |s.runs| == |s'.runs| && s'.runs == s.runs[r := s'.runs[r]]
    requires RunOk(cfg, s'.runs[r]) && Settled(s', r)
    requires forall q :: 0 <= q < |s.runs| && q != r && Settled(s, q) ==> Settled(s', q)
    ensures forall q :: 0 <= q < |s'.runs| ==> RunOk(cfg, s'.runs[q]) && Settled(s', q)
  {
  }

  lemma StartStepKeepsInv(cfg: Config, s: State)
    requires Inv(cfg, s) && Enabled(cfg, s, ControllerStep) && s.controller.Starting?
    ensures Inv(cfg, StartStep(cfg, s, s.controller.step))
  {
    var s' := StartStep(cfg, s, s.controller.step);
    var last := |s.runs| - 1;
    assert RunOk(cfg, s.runs[last]) && Settled(s, last);
    RunUpdateKeepsRuns(cfg, s, s', last);
  }

  lemma StopStepKeepsInv(cfg: Config, s: State)
    requires Inv(cfg, s) && Enabled(cfg, s, ControllerStep) && s.controller.Stopping?
    ensures Inv(cfg, StopStep(s, s.controller.step))
  {
    var s' := StopStep(s, s.controller.step);
    if s.controller.step == 1 && s.completionFut.Some? {
      var r := s.completionFut.value;
      assert RunOk(cfg, s.runs[r]) && Settled(s, r);
      RunUpdateKeepsRuns(cfg, s, s', r);
    } else {
      forall q | 0 <= q < |s'.runs| ensures RunOk(cfg, s'.runs[q]) && Settled(s', q) {
        assert RunOk(cfg, s.runs[q]) && Settled(s, q);
      }
    }
  }

  predicate IsWorkerEvent(e: Event) {
    e.Begin? || e.RunRaises? || e.CommandReturns? || e.Record? || e.Decide?
  }

  predicate IsCallbackEvent(e: Event) {
    e.CallbackBegins? || e.CallbackStep?
  }

  lemma WorkerKeepsInv(cfg: Config, s: State, e: Event)
    requires Inv(cfg, s) && Enabled(cfg, s, e) && IsWorkerEvent(e)
    ensures Inv(cfg, Apply(cfg, s, e))
  {
    var s' := Apply(cfg, s, e);
    assert RunOk(cfg, s.runs[e.run]) && Settled(s, e.run);
    RunUpdateKeepsRuns(cfg, s, s', e.run);
  }

  lemma CallbackKeepsInv(cfg: Config, s: State, e: Event)
    requires Inv(cfg, s) && Enabled(cfg, s, e) && IsCallbackEvent(e)
    ensures Inv(cfg, Apply(cfg, s, e))
  {
    var s' := Apply(cfg, s, e);
    assert RunOk(cfg, s.runs[e.run]) && Settled(s, e.run);
    RunUpdateKeepsRuns(cfg, s, s', e.run);
  }

  lemma StepKeepsInv(cfg: Config, s: State, e: Event)
    requires Inv(cfg, s) && Enabled(cfg, s, e)
    ensures Inv(cfg, Apply(cfg, s, e))
  {
    if IsWorkerEvent(e) {
      WorkerKeepsInv(cfg, s, e);
    } else if IsCallbackEvent(e) {
      CallbackKeepsInv(cfg, s, e);
    } else if e.ControllerStep? {
      if s.controller.Starting? { StartStepKeepsInv(cfg, s); } else { StopStepKeepsInv(cfg, s); }
    } else {
      var s' := Apply(cfg, s, e);
      forall r | 0 <= r < |s'.runs| ensures RunOk(cfg, s'.runs[r]) && Settled(s', r) {
        assert r < |s.runs| ==> RunOk(cfg, s.runs[r]) && Settled(s, r);
      }
    }
  }

  lemma {:induction false} TraceKeepsInv(cfg: Config, s: State, es: seq<Event>)
    requires Inv(cfg, s) && Trace(cfg, s, es)
    ensures Inv(cfg, Final(cfg, s, es))
    decreases es
  {
    if es == [] {
    } else {
      StepKeepsInv(cfg, s, es[0]);
      TraceKeepsInv(cfg, Apply(cfg, s, es[0]), es[1..]);
    }
  }

  /**
   RUNNING is only ever shown while the callback of the latest started run has its status write
   ahead of it, whatever stop() and restart calls overlap older runs.
   */
  lemma RunningHasCallbackAhead(cfg: Config, now: real, es: seq<Event>)
    requires Trace(cfg, Init(cfg, now), es)
    ensures var s := Final(cfg, Init(cfg, now), es);
            s.status.Running? ==> s.runs != [] && StatusPending(Last(s.runs))
  {
    TraceKeepsInv(cfg, Init(cfg, now), es);
  }

  // ---------------------------------------------------------------------------------------------
  // A waiter is always released

  /** The events that happen without anyone calling start() or stop() again. */
  predicate IsProgress(e: Event) {
    !e.StartCall? && !e.StopCall? && !e.Tick?
  }

  ghost function RunWork(run: Run): nat {
    (match run.phase
     case Unsubmitted => 5
     case Queued => 4
     case Executing => 3
     case Returned => 2
     case Recorded => 1
     case Done(_) => 0) +
    (match run.callback
     case Unregistered => 5
     case Registered => 4
     case Writing(_) => if WritesLeft(run) > 0 then WritesLeft(run) else 0)
  }

  ghost function RunsWork(runs: seq<Run>): nat {
    if runs == [] then 0 else RunsWork(runs[..|runs| - 1]) + RunWork(Last(runs))
  }

  /** A bound on the events left if nobody calls again. */
  ghost function Work(s: State): int {
    RunsWork(s.runs) +
    match s.controller
    case Idle => 0
    case Starting(k) => 8 - k
    case Stopping(k) => 5 - k
  }

  lemma {:induction false} RunsWorkUpdate(runs: seq<Run>, r: nat, run: Run)
    requires r < |runs|
    ensures RunsWork(runs[r := run]) == RunsWork(runs) - RunWork(runs[r]) + RunWork(run)
  {
    var n := |runs| - 1;
    if r < n {
      assert runs[r := run][..n] == runs[..n][r := run];
      RunsWorkUpdate(runs[..n], r, run);
    } else {
      assert runs[r := run][..n] == runs[..n];
    }
  }

  lemma StartStepUsesWork(cfg: Config, s: State)
    requires Inv(cfg, s) && Enabled(cfg, s, ControllerStep) && s.controller.Starting?
    ensures Work(StartStep(cfg, s, s.controller.step)) < Work(s)
  {
  }

  lemma StopStepUsesWork(cfg: Config, s: State)
    requires Inv(cfg, s) && Enabled(cfg, s, ControllerStep) && s.controller.Stopping?
    ensures Work(StopStep(s, s.controller.step)) < Work(s)
  {
    var s' := StopStep(s, s.controller.step);
    if s.controller.step == 1 && s.completionFut.Some? {
      var r := s.completionFut.value;
      assert RunOk(cfg, s.runs[r]) && Settled(s, r);
      assert s'.runs == s.runs[r := s'.runs[r]];
      RunsWorkUpdate(s.runs, r, s'.runs[r]);
    }
  }

  lemma WorkerUsesWork(cfg: Config, s: State, e: Event)
    requires Inv(cfg, s) && Enabled(cfg, s, e) && IsWorkerEvent(e)
    ensures Work(Apply(cfg, s, e)) < Work(s)
  {
    assert RunOk(cfg, s.runs[e.run]);
    RunsWorkUpdate(s.runs, e.run, Apply(cfg, s, e).runs[e.run]);
  }

  lemma CallbackLessWork(run: Run)
    requires run.phase.Done?
    ensures run.callback.Registered? ==> RunWork(run.(callback := Writing(0))) < RunWork(run)
    ensures run.callback.Writing? && WritesLeft(run) > 0 ==>
              RunWork(run.(callback := Writing(run.callback.made + 1))) < RunWork(run)
  {
  }

  lemma CallbackUsesWork(cfg: Config, s: State, e: Event)
    requires Inv(cfg, s) && Enabled(cfg, s, e) && IsCallbackEvent(e)
    ensures Work(Apply(cfg, s, e)) < Work(s)
  {
    var run := s.runs[e.run];
    CallbackLessWork(run);
    RunsWorkUpdate(s.runs, e.run, run.(callback := Writing(if e.CallbackBegins? then 0 else run.callback.made + 1)));
  }

  lemma ProgressUsesWork(cfg: Config, s: State, e: Event)
    requires Inv(cfg, s) && Enabled(cfg, s, e) && IsProgress(e)
    ensures Work(Apply(cfg, s, e)) < Work(s)
  {
    if e.ControllerStep? {
      if s.controller.Starting? { StartStepUsesWork(cfg, s); } else { StopStepUsesWork(cfg, s); }
    } else if IsWorkerEvent(e) {
      WorkerUsesWork(cfg, s, e);
    } else {
      CallbackUsesWork(cfg, s, e);
    }
  }

  lemma {:induction false} BusyMeansOccupied(runs: seq<Run>) returns (r: nat)
    requires Busy(runs) > 0
    ensures r < |runs| && Occupies(runs[r])
  {
    if Occupies(Last(runs)) {
      r := |runs| - 1;
    } else {
      r := BusyMeansOccupied(runs[..|runs| - 1]);
    }
  }

  lemma {:induction false} FirstQueued(runs: seq<Run>, r: nat) returns (q: nat)
    requires r < |runs| && runs[r].phase.Queued?
    ensures q < |runs| && runs[q].phase.Queued? && forall j :: 0 <= j < q ==> !runs[j].phase.Queued?
    decreases r
  {
    if j: nat :| j < r && runs[j].phase.Queued? {
      q := FirstQueued(runs, j);
    } else {
      q := r;
    }
  }

  /** While RUNNING shows, or a call is in progress, some thread can move. */
  lemma SomethingCanMove(cfg: Config, s: State) returns (e: Event)
    requires Inv(cfg, s) && cfg.maxWorkers > 0
    requires s.status.Running? || !s.controller.Idle?
    ensures IsProgress(e) && Enabled(cfg, s, e)
  {
    if !s.controller.Idle? {
      e := ControllerStep;
      if Blocked(s) {
        assert RunOk(cfg, s.runs[s.inCallback.value]);
        e := CallbackStep(s.inCallback.value);
      }
    } else {
      var r := |s.runs| - 1;
      if s.runs[r].phase.Queued? {
        if Busy(s.runs) < cfg.maxWorkers {
          var q := FirstQueued(s.runs, r);
          e := Begin(q);
          return;
        }
        r := BusyMeansOccupied(s.runs);
      }
      assert RunOk(cfg, s.runs[r]) && Settled(s, r);
      match s.runs[r].phase
      case Executing => e := RunRaises(r, "");
      case Returned => e := Record(r);
      case Recorded => e := Decide(r);
      case Done(_) => e := if s.runs[r].callback.Registered? then CallbackBegins(r) else CallbackStep(r);
    }
  }

  lemma {:induction false} ProgressIsBounded(cfg: Config, s: State, es: seq<Event>)
    requires Inv(cfg, s) && Trace(cfg, s, es) && forall e :: e in es ==> IsProgress(e)
    ensures |es| <= Work(s)
    decreases es
  {
    if es == [] {
    } else {
      assert es[0] in es;
      ProgressUsesWork(cfg, s, es[0]);
      StepKeepsInv(cfg, s, es[0]);
      ProgressIsBounded(cfg, Apply(cfg, s, es[0]), es[1..]);
    }
  }

  /**
   A waiter never waits on a dead run: after any history, if nobody calls start() or stop() again,
   at most Work events can follow, and once none can, no call is in progress and the status is not
   RUNNING.
   */
  lemma WaiterIsReleased(cfg: Config, now: real, es: seq<Event>, fs: seq<Event>)
    requires cfg.maxWorkers > 0
    requires Trace(cfg, Init(cfg, now), es)
    requires Trace(cfg, Final(cfg, Init(cfg, now), es), fs) && forall e :: e in fs ==> IsProgress(e)
    ensures var s := Final(cfg, Init(cfg, now), es);
            var s' := Final(cfg, s, fs);
            && |fs| <= Work(s)
            && ((forall e :: IsProgress(e) ==> !Enabled(cfg, s', e)) ==> s'.controller.Idle? && !s'.status.Running?)
  {
    var s := Final(cfg, Init(cfg, now), es);
    TraceKeepsInv(cfg, Init(cfg, now), es);
    TraceKeepsInv(cfg, s, fs);
    ProgressIsBounded(cfg, s, fs);
    var s' := Final(cfg, s, fs);
    if s'.status.Running? || !s'.controller.Idle? {
      var e := SomethingCanMove(cfg, s');
    }
  }

  // ---------------------------------------------------------------------------------------------
  // The pool

  /** The runs whose command has begun and whose outcome is not decided. */
  ghost function UnderWay(runs: seq<Run>): set<nat> {
    set r: nat | r < |runs| && (runs[r].phase.Executing? || runs[r].phase.Returned? || runs[r].phase.Recorded?)
  }

  lemma {:induction false} BusyCounts(runs: seq<Run>)
    ensures |UnderWay(runs)| == Busy(runs)
  {
    if runs == [] {
    } else {
      var n := |runs| - 1;
      BusyCounts(runs[..n]);
      assert UnderWay(runs) == UnderWay(runs[..n]) + if Occupies(runs[n]) then {n} else {};
    }
  }

  lemma {:induction false} BusyUpdated(runs: seq<Run>, r: nat, run: Run)
    requires r < |runs|
    ensures Busy(runs[r := run]) ==
            Busy(runs) - (if Occupies(runs[r]) then 1 else 0) + if Occupies(run) then 1 else 0
  {
    var n := |runs| - 1;
    if r == n {
      assert runs[r := run][..n] == runs[..n];
    } else {
      BusyUpdated(runs[..n], r, run);
      assert runs[r := run][..n] == runs[..n][r := run];
    }
  }

  lemma BusySame(before: seq<Run>, after: seq<Run>, r: nat)
    requires r < |before| == |after| && after == before[r := after[r]] && Occupies(after[r]) == Occupies(before[r])
    ensures Busy(after) == Busy(before)
  {
    BusyUpdated(before, r, after[r]);
  }

  /** The controller neither begins nor ends what a thread is busy with. */
  lemma StartKeepsPool(cfg: Config, s: State)
    requires Inv(cfg, s) && s.controller.Starting?
    ensures Busy(StartStep(cfg, s, s.controller.step).runs) == Busy(s.runs)
  {
    var last := |s.runs| - 1;
    assert Settled(s, last);
    BusySame(s.runs, StartStep(cfg, s, s.controller.step).runs, last);
  }

  lemma StopKeepsPool(cfg: Config, s: State)
    requires Inv(cfg, s) && s.controller.Stopping?
    ensures Busy(StopStep(s, s.controller.step).runs) == Busy(s.runs)
  {
    if s.completionFut.Some? {
      BusySame(s.runs, StopStep(s, s.controller.step).runs, s.completionFut.value);
    }
  }

  lemma RunKeepsPool(cfg: Config, s: State, e: Event)
    requires Inv(cfg, s) && Enabled(cfg, s, e) && Busy(s.runs) <= cfg.maxWorkers
    requires IsWorkerEvent(e) || IsCallbackEvent(e)
    ensures Busy(Apply(cfg, s, e).runs) <= cfg.maxWorkers
  {
    BusyUpdated(s.runs, e.run, Apply(cfg, s, e).runs[e.run]);
  }

  lemma StepKeepsPool(cfg: Config, s: State, e: Event)
    requires Inv(cfg, s) && Enabled(cfg, s, e) && Busy(s.runs) <= cfg.maxWorkers
    ensures Busy(Apply(cfg, s, e).runs) <= cfg.maxWorkers
  {
    if IsWorkerEvent(e) || IsCallbackEvent(e) {
      RunKeepsPool(cfg, s, e);
    } else if e.StartCall? && !s.status.Running? {
      assert Apply(cfg, s, e).runs[..|s.runs|] == s.runs;
    } else if e.ControllerStep? {
      if s.controller.Starting? { StartKeepsPool(cfg, s); } else { StopKeepsPool(cfg, s); }
    }
  }

  lemma {:induction false} TraceKeepsPool(cfg: Config, s: State, es: seq<Event>)
    requires Inv(cfg, s) && Trace(cfg, s, es) && Busy(s.runs) <= cfg.maxWorkers
    ensures Busy(Final(cfg, s, es).runs) <= cfg.maxWorkers
    decreases es
  {
    if es == [] {
    } else {
      StepKeepsInv(cfg, s, es[0]);
      StepKeepsPool(cfg, s, es[0]);
      TraceKeepsPool(cfg, Apply(cfg, s, es[0]), es[1..]);
    }
  }

  /** However starts and stops interleave, no more commands are under way than the pool has threads. */
  lemma PoolIsNotExceeded(cfg: Config, now: real, es: seq<Event>)
    requires Trace(cfg, Init(cfg, now), es)
    ensures |UnderWay(Final(cfg, Init(cfg, now), es).runs)| <= cfg.maxWorkers
  {
    TraceKeepsPool(cfg, Init(cfg, now), es);
    BusyCounts(Final(cfg, Init(cfg, now), es).runs);
  }

  /** And a queued run waits only while as many are under way, or an earlier one is queued. */
  lemma QueuedWaitsForThread(cfg: Config, s: State, r: nat)
    requires r < |s.runs| && s.runs[r].phase.Queued?
    ensures Enabled(cfg, s, Begin(r)) <==>
            |UnderWay(s.runs)| < cfg.maxWorkers && forall j :: 0 <= j < r ==> !s.runs[j].phase.Queued?
  {
    BusyCounts(s.runs);
  }

  // ---------------------------------------------------------------------------------------------
  // Whose result COMPLETED shows

  /** Every start() that begins a run follows the previous runs' callbacks, and the clock never goes back. */
  predicate Careful(cfg: Config, s: State, es: seq<Event>)
    requires Trace(cfg, s, es)
    decreases es
  {
    es == [] ||
    (&& (es[0].StartCall? && !s.status.Running? ==> forall r :: 0 <= r < |s.runs| ==> Fired(s.runs[r]))
     && (es[0].Tick? ==> s.now <= es[0].time)
     && Careful(cfg, Apply(cfg, s, es[0]), es[1..]))
  }

  /** The latest run and the shared fields agree, from the moment start() has set RUNNING. */
  ghost predicate Own(cfg: Config, s: State) {
    && (forall r :: 0 <= r < |s.runs| - 1 ==> Fired(s.runs[r]))
    && (s.status.Completed? ==> s.runs != [])
    && (s.runs != [] ==>
          var run := Last(s.runs);
          && ((s.controller.Starting? && s.controller.step <= 1) || s.startTime <= s.now)
          && (s.status.Completed? && !(s.controller.Starting? && s.controller.step <= 2) ==>
                Fired(run) && run.phase.Done? && run.phase.outcome.Value?)
          && (run.phase.Recorded? || (run.phase.Done? && run.phase.outcome.Value?) ==>
                s.commandResult == run.returned)
          && (run.phase.Done? && run.phase.outcome.Value? && run.callback.Writing? ==>
                && (run.callback.made >= 1 ==> s.startTime <= s.endTime)
                && (run.callback.made >= 2 ==> s.result == run.phase.outcome.value)))
  }

  /** A fired run stays fired, and only the latest run can still be moving. */
  lemma OlderRunsStayFired(cfg: Config, s: State, e: Event)
    requires Inv(cfg, s) && Own(cfg, s) && Enabled(cfg, s, e) && Careful(cfg, s, [e])
    ensures forall r :: 0 <= r < |Apply(cfg, s, e).runs| - 1 ==> Fired(Apply(cfg, s, e).runs[r])
  {
    forall r | 0 <= r < |Apply(cfg, s, e).runs| - 1 ensures Fired(Apply(cfg, s, e).runs[r]) {
      assert r < |s.runs| - 1 ==> Fired(s.runs[r]) && RunOk(cfg, s.runs[r]) && Settled(s, r);
    }
  }

  lemma StartStepKeepsOwn(cfg: Config, s: State)
    requires Inv(cfg, s) && Own(cfg, s) && Enabled(cfg, s, ControllerStep) && s.controller.Starting?
    ensures Own(cfg, StartStep(cfg, s, s.controller.step))
  {
    var last := |s.runs| - 1;
    assert RunOk(cfg, s.runs[last]) && Settled(s, last);
  }

  lemma StopStepKeepsOwn(cfg: Config, s: State)
    requires Inv(cfg, s) && Own(cfg, s) && Enabled(cfg, s, ControllerStep) && s.controller.Stopping?
    requires forall r :: 0 <= r < |s.runs| - 1 ==> Fired(StopStep(s, s.controller.step).runs[r])
    ensures Own(cfg, StopStep(s, s.controller.step))
  {
    if s.runs != [] {
      var last := |s.runs| - 1;
      assert RunOk(cfg, s.runs[last]) && Settled(s, last);
    }
  }

  lemma WorkerKeepsOwn(cfg: Config, s: State, e: Event)
    requires Inv(cfg, s) && Own(cfg, s) && Enabled(cfg, s, e) && IsWorkerEvent(e)
    requires forall r :: 0 <= r < |s.runs| - 1 ==> Fired(Apply(cfg, s, e).runs[r])
    ensures Own(cfg, Apply(cfg, s, e))
  {
  }

  lemma CallbackKeepsOwn(cfg: Config, s: State, e: Event)
    requires Inv(cfg, s) && Own(cfg, s) && Enabled(cfg, s, e) && IsCallbackEvent(e)
    requires forall r :: 0 <= r < |s.runs| - 1 ==> Fired(Apply(cfg, s, e).runs[r])
    ensures Own(cfg, Apply(cfg, s, e))
  {
    assert RunOk(cfg, s.runs[e.run]) && Settled(s, e.run);
    assert e.run == |s.runs| - 1;
  }

  lemma CarefulStepKeepsOwn(cfg: Config, s: State, e: Event)
    requires Inv(cfg, s) && Own(cfg, s) && Enabled(cfg, s, e) && Careful(cfg, s, [e])
    ensures Own(cfg, Apply(cfg, s, e))
  {
    OlderRunsStayFired(cfg, s, e);
    if IsWorkerEvent(e) {
      WorkerKeepsOwn(cfg, s, e);
    } else if IsCallbackEvent(e) {
      CallbackKeepsOwn(cfg, s, e);
    } else if e.ControllerStep? {
      if s.controller.Starting? { StartStepKeepsOwn(cfg, s); } else { StopStepKeepsOwn(cfg, s); }
    } else if s.runs != [] {
      assert RunOk(cfg, Last(s.runs)) && Settled(s, |s.runs| - 1);
    }
  }

  lemma {:induction false} CarefulTraceKeepsOwn(cfg: Config, s: State, es: seq<Event>)
    requires Inv(cfg, s) && Own(cfg, s) && Trace(cfg, s, es) && Careful(cfg, s, es)
    ensures Own(cfg, Final(cfg, s, es))
    decreases es
  {
    if es == [] {
    } else {
      var s' := Apply(cfg, s, es[0]);
      assert Trace(cfg, s', []) && Careful(cfg, s', []);
      assert Careful(cfg, s, [es[0]]);
      StepKeepsInv(cfg, s, es[0]);
      CarefulStepKeepsOwn(cfg, s, es[0]);
      CarefulTraceKeepsOwn(cfg, s', es[1..]);
    }
  }

  /**
   When every start() follows the earlier callbacks and the clock does not go back, a controller
   that sees COMPLETED sees the parsed output of the latest run's own successful command, the raw
   result of that command, and an end time not before the start time, whatever stop() calls raced.
   */
  lemma CompletedShowsOwnResult(cfg: Config, now: real, es: seq<Event>)
    requires Trace(cfg, Init(cfg, now), es) && Careful(cfg, Init(cfg, now), es)
    ensures var s := Final(cfg, Init(cfg, now), es);
            s.controller.Idle? && s.status.Completed? ==>
              && s.runs != [] && Last(s.runs).returned.Some?
              && var c := Last(s.runs).returned.value;
                 && c.returncode == 0 && cfg.parse(c) == Parsed(s.result)
                 && s.commandResult == Some(c) && s.startTime <= s.endTime
  {
    var s0 := Init(cfg, now);
    TraceKeepsInv(cfg, s0, es);
    CarefulTraceKeepsOwn(cfg, s0, es);
    var s := Final(cfg, s0, es);
    if s.runs != [] {
      assert RunOk(cfg, Last(s.runs));
    }
  }

  // ---------------------------------------------------------------------------------------------
  // Whose failure ERROR shows

  /** Why the run ended as it did: what its command returned, if it got that far. */
  ghost predicate Accounted(cfg: Config, run: Run) {
    match run.phase
    case Done(Value(_)) => true
    case Done(Raised(m)) => run.returned.Some? ==> FailsWith(cfg, run.returned.value, m)
    case Done(WorkloadCancelled) => run.returned.Some? && !run.returned.value.Success()
    case Returned => true
    case Recorded => true
    case _ => run.returned.None?
  }

  ghost predicate AllAccounted(cfg: Config, s: State) {
    forall r :: 0 <= r < |s.runs| ==> Accounted(cfg, s.runs[r])
  }

  lemma RunStepKeepsAccounts(cfg: Config, s: State, e: Event)
    requires Inv(cfg, s) && AllAccounted(cfg, s) && Enabled(cfg, s, e) && (IsWorkerEvent(e) || IsCallbackEvent(e))
    ensures AllAccounted(cfg, Apply(cfg, s, e))
  {
    assert Accounted(cfg, s.runs[e.run]) && RunOk(cfg, s.runs[e.run]);
  }

  lemma StepKeepsAccounts(cfg: Config, s: State, e: Event)
    requires Inv(cfg, s) && AllAccounted(cfg, s) && Enabled(cfg, s, e)
    ensures AllAccounted(cfg, Apply(cfg, s, e))
  {
    if IsWorkerEvent(e) || IsCallbackEvent(e) {
      RunStepKeepsAccounts(cfg, s, e);
    } else {
      forall r | 0 <= r < |Apply(cfg, s, e).runs| ensures Accounted(cfg, Apply(cfg, s, e).runs[r]) {
        assert r < |s.runs| ==> Accounted(cfg, s.runs[r]) && RunOk(cfg, s.runs[r]) && Settled(s, r);
      }
    }
  }

  lemma {:induction false} TraceKeepsAccounts(cfg: Config, s: State, es: seq<Event>)
    requires Inv(cfg, s) && AllAccounted(cfg, s) && Trace(cfg, s, es)
    ensures AllAccounted(cfg, Final(cfg, s, es))
    decreases es
  {
    if es == [] {
    } else {
      StepKeepsInv(cfg, s, es[0]);
      StepKeepsAccounts(cfg, s, es[0]);
      TraceKeepsAccounts(cfg, Apply(cfg, s, es[0]), es[1..]);
    }
  }

  /** The command failed and this describes it, or its output could not be parsed for this reason. */
  predicate FailsWith(cfg: Config, c: CommandResult, message: string) {
    if c.Success() then cfg.parse(c) == ParseRaised(message) else message == cfg.failureDetail(c)
  }

  /** What the latest run's callback has put into the result that start() emptied. */
  function Shown(cfg: Config, run: Run): string {
    if !(run.phase.Done? && run.callback.Writing? && run.callback.made >= 2) then cfg.empty
    else
      match run.phase.outcome
      case Value(v) => v
      case Raised(m) => m
      case _ => cfg.empty
  }

  /** The result, the raw result and ERROR are the latest run's, from the moment start() has reset each. */
  ghost predicate OwnFields(cfg: Config, s: State) {
    && (s.status.Error? ==> s.runs != [])
    && (s.runs != [] ==>
          var run := Last(s.runs);
          && (s.status.Error? && !(s.controller.Starting? && s.controller.step <= 2) ==>
                run.phase.Done? && run.phase.outcome.Raised? && run.callback.Writing? && run.callback.made >= 1)
          && (!(s.controller.Starting? && s.controller.step <= 3) ==> s.result == Shown(cfg, run))
          && (!(s.controller.Starting? && s.controller.step <= 4) ==>
                s.commandResult == if run.phase.Recorded? || run.phase.Done? then run.returned else None))
  }

  lemma StartStepKeepsFields(cfg: Config, s: State)
    requires Inv(cfg, s) && OwnFields(cfg, s) && Enabled(cfg, s, ControllerStep) && s.controller.Starting?
    requires AllAccounted(cfg, s)
    ensures OwnFields(cfg, StartStep(cfg, s, s.controller.step))
  {
    var last := |s.runs| - 1;
    assert RunOk(cfg, s.runs[last]) && Settled(s, last) && Accounted(cfg, s.runs[last]);
  }

  lemma StopStepKeepsFields(cfg: Config, s: State)
    requires Inv(cfg, s) && OwnFields(cfg, s) && Enabled(cfg, s, ControllerStep) && s.controller.Stopping?
    requires AllAccounted(cfg, s)
    ensures OwnFields(cfg, StopStep(s, s.controller.step))
  {
    if s.controller.step == 1 && s.completionFut.Some? {
      var r := s.completionFut.value;
      assert RunOk(cfg, s.runs[r]) && Settled(s, r) && Accounted(cfg, s.runs[r]);
    }
  }

  lemma WorkerKeepsFields(cfg: Config, s: State, e: Event)
    requires Inv(cfg, s) && OwnFields(cfg, s) && Enabled(cfg, s, e) && IsWorkerEvent(e) && e.run == |s.runs| - 1
    requires Accounted(cfg, Last(s.runs))
    ensures OwnFields(cfg, Apply(cfg, s, e))
  {
    assert RunOk(cfg, s.runs[e.run]) && Settled(s, e.run);
  }

  lemma CallbackKeepsFields(cfg: Config, s: State, e: Event)
    requires Inv(cfg, s) && OwnFields(cfg, s) && Enabled(cfg, s, e) && IsCallbackEvent(e) && e.run == |s.runs| - 1
    ensures OwnFields(cfg, Apply(cfg, s, e))
  {
    assert RunOk(cfg, s.runs[e.run]) && Settled(s, e.run);
  }

  /** Only the latest run still takes steps. */
  lemma LatestSteps(cfg: Config, s: State, e: Event)
    requires Inv(cfg, s) && Own(cfg, s) && Enabled(cfg, s, e) && (IsWorkerEvent(e) || IsCallbackEvent(e))
    ensures e.run == |s.runs| - 1
  {
    assert RunOk(cfg, s.runs[e.run]) && Settled(s, e.run);
    assert e.run < |s.runs| - 1 ==> Fired(s.runs[e.run]);
  }

  lemma CarefulStepKeepsFields(cfg: Config, s: State, e: Event)
    requires Inv(cfg, s) && Own(cfg, s) && AllAccounted(cfg, s) && OwnFields(cfg, s) && Enabled(cfg, s, e)
    ensures OwnFields(cfg, Apply(cfg, s, e))
  {
    if IsWorkerEvent(e) {
      LatestSteps(cfg, s, e);
      WorkerKeepsFields(cfg, s, e);
    } else if IsCallbackEvent(e) {
      LatestSteps(cfg, s, e);
      CallbackKeepsFields(cfg, s, e);
    } else if e.ControllerStep? {
      if s.controller.Starting? { StartStepKeepsFields(cfg, s); } else { StopStepKeepsFields(cfg, s); }
    }
  }

  lemma {:induction false} CarefulTraceKeepsFields(cfg: Config, s: State, es: seq<Event>)
    requires Inv(cfg, s) && Own(cfg, s) && AllAccounted(cfg, s) && OwnFields(cfg, s)
    requires Trace(cfg, s, es) && Careful(cfg, s, es)
    ensures AllAccounted(cfg, Final(cfg, s, es)) && OwnFields(cfg, Final(cfg, s, es))
    decreases es
  {
    if es == [] {
    } else {
      var s' := Apply(cfg, s, es[0]);
      assert Trace(cfg, s', []) && Careful(cfg, s', []);
      assert Careful(cfg, s, [es[0]]);
      StepKeepsInv(cfg, s, es[0]);
      CarefulStepKeepsOwn(cfg, s, es[0]);
      StepKeepsAccounts(cfg, s, es[0]);
      CarefulStepKeepsFields(cfg, s, es[0]);
      CarefulTraceKeepsFields(cfg, s', es[1..]);
    }
  }

  /**
   Under the same conditions a controller that sees ERROR sees a failure of the latest run: its
   command failed, or its output could not be parsed, or it did not run at all. The raw result is that
   run's, and the result its description, or still empty while the callback is between its writes.
   */
  lemma ErrorShowsOwnFailure(cfg: Config, now: real, es: seq<Event>)
    requires Trace(cfg, Init(cfg, now), es) && Careful(cfg, Init(cfg, now), es)
    ensures var s := Final(cfg, Init(cfg, now), es);
            s.controller.Idle? && s.status.Error? ==>
              && s.runs != [] && Last(s.runs).phase.Done? && s.commandResult == Last(s.runs).returned
              && (Fired(Last(s.runs)) || s.result != cfg.empty ==>
                    && Last(s.runs).phase.outcome == Raised(s.result)
                    && (s.commandResult.Some? ==> FailsWith(cfg, s.commandResult.value, s.result)))
  {
    var s0 := Init(cfg, now);
    TraceKeepsInv(cfg, s0, es);
    CarefulTraceKeepsOwn(cfg, s0, es);
    CarefulTraceKeepsFields(cfg, s0, es);
    var s := Final(cfg, s0, es);
    if s.runs != [] {
      assert RunOk(cfg, Last(s.runs)) && Accounted(cfg, Last(s.runs));
    }
  }

  // ---------------------------------------------------------------------------------------------
  // A run taken out of the queue

  /** A cancelled run's callback has made all its writes, or stop() is waiting for it before it goes on. */
  ghost predicate CancelledDone(s: State, r: nat)
    requires r < |s.runs|
  {
    s.runs[r].phase == Done(FutureCancelled) ==>
      Fired(s.runs[r]) || (s.inCallback == Some(r) && s.controller == Stopping(2) && s.runs[r].callback.Writing?)
  }

  ghost predicate AllCancelledDone(s: State) {
    forall r :: 0 <= r < |s.runs| ==> CancelledDone(s, r)
  }

  lemma RunStepKeepsCancelled(cfg: Config, s: State, e: Event)
    requires Inv(cfg, s) && AllCancelledDone(s) && Enabled(cfg, s, e) && (IsWorkerEvent(e) || IsCallbackEvent(e))
    ensures AllCancelledDone(Apply(cfg, s, e))
  {
    assert CancelledDone(s, e.run) && RunOk(cfg, s.runs[e.run]);
    var t := Apply(cfg, s, e);
    forall r | 0 <= r < |t.runs| ensures CancelledDone(t, r) {
      assert CancelledDone(s, r);
    }
  }

  lemma ControllerKeepsCancelled(cfg: Config, s: State)
    requires Inv(cfg, s) && AllCancelledDone(s) && Enabled(cfg, s, ControllerStep)
    ensures AllCancelledDone(Apply(cfg, s, ControllerStep))
  {
    var t := Apply(cfg, s, ControllerStep);
    forall r | 0 <= r < |t.runs| ensures CancelledDone(t, r) {
      assert CancelledDone(s, r) && RunOk(cfg, s.runs[r]) && Settled(s, r);
    }
  }

  lemma {:induction false} TraceKeepsCancelled(cfg: Config, s: State, es: seq<Event>)
    requires Inv(cfg, s) && AllCancelledDone(s) && Trace(cfg, s, es)
    ensures AllCancelledDone(Final(cfg, s, es))
    decreases es
  {
    if es == [] {
    } else {
      var e, t := es[0], Apply(cfg, s, es[0]);
      StepKeepsInv(cfg, s, e);
      if IsWorkerEvent(e) || IsCallbackEvent(e) {
        RunStepKeepsCancelled(cfg, s, e);
      } else if e.ControllerStep? {
        ControllerKeepsCancelled(cfg, s);
      } else {
        forall r | 0 <= r < |t.runs| ensures CancelledDone(t, r) {
          assert r < |s.runs| ==> CancelledDone(s, r);
        }
      }
      TraceKeepsCancelled(cfg, t, es[1..]);
    }
  }

  /** Once stop() has set STOPPED, the callback of a run it took out of the queue is over, end time included. */
  lemma CancelledIsDelivered(cfg: Config, now: real, es: seq<Event>, r: nat)
    requires Trace(cfg, Init(cfg, now), es) && r < |Final(cfg, Init(cfg, now), es).runs|
    ensures var s := Final(cfg, Init(cfg, now), es);
            s.runs[r].phase == Done(FutureCancelled) && s.controller != Stopping(2) ==>
              s.runs[r].callback == Writing(2) && s.runs[r].returned.None?
  {
    var s0 := Init(cfg, now);
    TraceKeepsInv(cfg, s0, es);
    TraceKeepsCancelled(cfg, s0, es);
    TraceKeepsAccounts(cfg, s0, es);
    var s := Final(cfg, s0, es);
    assert CancelledDone(s, r) && RunOk(cfg, s.runs[r]) && Accounted(cfg, s.runs[r]);
  }

  // ---------------------------------------------------------------------------------------------
  // Calls nothing interrupts, and what goes wrong when an old run is still alive

  lemma Extend(cfg: Config, s: State, es: seq<Event>, e: Event)
    requires Trace(cfg, s, es) && Enabled(cfg, Final(cfg, s, es), e)
    ensures Trace(cfg, s, es + [e]) && Final(cfg, s, es + [e]) == Apply(cfg, Final(cfg, s, es), e)
    decreases es
  {
    if es == [] {
      assert [e][1..] == [] && es + [e] == [e];
    } else {
      Extend(cfg, Apply(cfg, s, es[0]), es[1..], e);
      assert (es + [e])[1..] == es[1..] + [e];
    }
  }

  lemma Append(cfg: Config, s: State, es: seq<Event>, fs: seq<Event>)
    requires Trace(cfg, s, es) && Trace(cfg, Final(cfg, s, es), fs)
    ensures Trace(cfg, s, es + fs) && Final(cfg, s, es + fs) == Final(cfg, Final(cfg, s, es), fs)
    decreases fs
  {
    if fs == [] {
      assert es + fs == es;
    } else {
      Extend(cfg, s, es, fs[0]);
      Append(cfg, s, es + [fs[0]], fs[1..]);
      assert es + [fs[0]] + fs[1..] == es + fs;
    }
  }

  /** What start() leaves when nothing moves during the call. */
  function Started(cfg: Config, s: State): State {
    s.(cancel := false, startTime := s.now, status := Running, result := cfg.empty, commandResult := None,
       completionFut := Some(|s.runs|), runs := s.runs + [Run(Queued, None, Registered)])
  }

  /** What the done-callback of a completed run leaves. */
  function CalledBack(cfg: Config, s: State, r: nat): State
    requires r < |s.runs| && s.runs[r].phase.Done?
  {
    var s' := SetRun(s, r, s.runs[r].(callback := Writing(WriteCount(s.runs[r].phase.outcome)))).(endTime := s.now);
    match s.runs[r].phase.outcome
    case Value(v) => s'.(result := v, status := Completed)
    case WorkloadCancelled => s'.(status := Stopped, result := cfg.empty)
    case FutureCancelled => s'.(status := Stopped)
    case Raised(m) => s'.(status := Error, result := m)
  }

  /** What stop() leaves: a run still in the queue is cancelled, and its callback runs inside the call. */
  function StoppedState(cfg: Config, s: State): State {
    var queued := s.completionFut.Some? && s.completionFut.value < |s.runs|
                  && s.runs[s.completionFut.value].phase.Queued?;
    var s' := if queued then
                var r := s.completionFut.value;
                CalledBack(cfg, SetRun(s, r, s.runs[r].(phase := Done(FutureCancelled))), r)
              else s;
    s'.(cancel := true, status := Stopped, completionFut := None)
  }

  /** The steps of a start() that has just been called. */
  lemma StartSteps(cfg: Config, s: State) returns (es: seq<Event>)
    requires Inv(cfg, s) && s.controller.Idle? && !s.status.Running?
    ensures var s' := Apply(cfg, s, StartCall);
            Trace(cfg, s', es) && Final(cfg, s', es) == Started(cfg, s)
    ensures forall e :: e in es ==> e == ControllerStep
  {
    es := [];
    var s' := Apply(cfg, s, StartCall);
    var k := 0;
    while k < 8
      invariant 0 <= k <= 8
      invariant forall e :: e in es ==> e == ControllerStep
      invariant Trace(cfg, s', es)
      invariant var t := Final(cfg, s', es);
                var n := |s.runs|;
                && t.inCallback.None? && t.now == s.now && t.endTime == s.endTime
                && t.controller == (if k == 8 then Idle else Starting(k))
                && t.cancel == (k < 1 && s.cancel)
                && t.startTime == (if k < 2 then s.startTime else s.now)
                && t.status == (if k < 3 then s.status else Running)
                && t.result == (if k < 4 then s.result else cfg.empty)
                && t.commandResult == (if k < 5 then s.commandResult else None)
                && t.completionFut == (if k < 6 then s.completionFut else Some(n))
                && t.runs == s.runs + [Run(if k < 6 then Unsubmitted else Queued, None,
                                           if k < 7 then Unregistered else Registered)]
    {
      Extend(cfg, s', es, ControllerStep);
      es := es + [ControllerStep];
      k := k + 1;
    }
  }

  lemma StartUninterrupted(cfg: Config, s: State) returns (es: seq<Event>)
    requires Inv(cfg, s) && s.controller.Idle? && !s.status.Running?
    ensures Trace(cfg, s, es) && Final(cfg, s, es) == Started(cfg, s)
  {
    var steps := StartSteps(cfg, s);
    es := [StartCall] + steps;
    assert es[1..] == steps;
  }

  /** The first writes of a callback bring it to its last one. */
  lemma CallbackUpToLast(cfg: Config, s: State, r: nat) returns (es: seq<Event>)
    requires r < |s.runs| && s.runs[r].phase.Done? && s.runs[r].callback == Writing(0)
    ensures Trace(cfg, s, es)
    ensures var outcome := s.runs[r].phase.outcome;
            var t := Final(cfg, s, es);
            var last := WriteCount(outcome) - 1;
            && t.runs == s.runs[r := s.runs[r].(callback := Writing(last))]
            && t == (match outcome
                     case Value(v) => s.(endTime := s.now, result := v)
                     case WorkloadCancelled => s.(status := Stopped, result := cfg.empty)
                     case FutureCancelled => s.(status := Stopped)
                     case Raised(m) => s.(status := Error, result := m)).(runs := t.runs)
  {
    es := [];
    Extend(cfg, s, es, CallbackStep(r));
    es := es + [CallbackStep(r)];
    if !s.runs[r].phase.outcome.FutureCancelled? {
      Extend(cfg, s, es, CallbackStep(r));
      es := es + [CallbackStep(r)];
    }
  }

  lemma CallbackUninterrupted(cfg: Config, s: State, r: nat) returns (es: seq<Event>)
    requires r < |s.runs| && s.runs[r].phase.Done? && s.runs[r].callback == Writing(0)
    ensures Trace(cfg, s, es) && Final(cfg, s, es) == CalledBack(cfg, s, r)
  {
    es := CallbackUpToLast(cfg, s, r);
    Extend(cfg, s, es, CallbackStep(r));
    es := es + [CallbackStep(r)];
  }

  lemma StopUninterrupted(cfg: Config, s: State) returns (es: seq<Event>)
    requires Inv(cfg, s) && s.controller.Idle?
    ensures Trace(cfg, s, es) && Final(cfg, s, es) == StoppedState(cfg, s)
  {
    es := [];
    Extend(cfg, s, es, StopCall);
    es := es + [StopCall];
    Extend(cfg, s, es, ControllerStep);
    es := es + [ControllerStep];
    var t := Final(cfg, s, es);
    Extend(cfg, s, es, ControllerStep);
    es := es + [ControllerStep];
    if s.completionFut.Some? && s.runs[s.completionFut.value].phase.Queued? {
      var r := s.completionFut.value;
      assert Settled(s, r) && RunOk(cfg, s.runs[r]);
      var fs := CallbackUninterrupted(cfg, Final(cfg, s, es), r);
      Append(cfg, s, es, fs);
      es := es + fs;
    }
    Extend(cfg, s, es, ControllerStep);
    es := es + [ControllerStep];
    Extend(cfg, s, es, ControllerStep);
    es := es + [ControllerStep];
    Extend(cfg, s, es, ControllerStep);
    es := es + [ControllerStep];
    assert Final(cfg, s, es).runs == StoppedState(cfg, s).runs;
  }

  /**
   A run that outlives its stop(): whenever the status is not RUNNING and some run holds a value its
   callback has not delivered, (1) that callback turns the status into COMPLETED, so STOPPED is not
   final, and (2) when a start() comes first, COMPLETED shows the old run's value while the new run
   is still queued. Careful is what rules the second case out.
   */
  lemma OldRunOverwrites(cfg: Config, s: State, q: nat) returns (late: seq<Event>, overlap: seq<Event>)
    requires Inv(cfg, s) && s.controller.Idle? && !s.status.Running?
    requires q < |s.runs| && s.runs[q].phase.Done? && s.runs[q].phase.outcome.Value? && s.runs[q].callback.Registered?
    ensures Trace(cfg, s, late) && Final(cfg, s, late).status.Completed?
    ensures Trace(cfg, s, overlap)
    ensures var t := Final(cfg, s, overlap);
            && t.controller.Idle? && t.status.Completed? && t.result == s.runs[q].phase.outcome.value
            && |t.runs| == |s.runs| + 1 && Last(t.runs).phase.Queued?
  {
    Extend(cfg, s, [], CallbackBegins(q));
    var fs := CallbackUninterrupted(cfg, Apply(cfg, s, CallbackBegins(q)), q);
    late := [] + [CallbackBegins(q)] + fs;
    Append(cfg, s, [] + [CallbackBegins(q)], fs);

    var es := StartUninterrupted(cfg, s);
    var t := Started(cfg, s);
    Extend(cfg, t, [], CallbackBegins(q));
    fs := CallbackUninterrupted(cfg, Apply(cfg, t, CallbackBegins(q)), q);
    Append(cfg, t, [] + [CallbackBegins(q)], fs);
    Append(cfg, s, es, [] + [CallbackBegins(q)] + fs);
    overlap := es + ([] + [CallbackBegins(q)] + fs);
  }

  /** Such a run exists: the command succeeds just before stop() sets the cancel flag. */
  lemma OldRunCanOutliveStop(cfg: Config, now: real, c: CommandResult) returns (es: seq<Event>)
    requires cfg.maxWorkers > 0 && c.Success() && cfg.parse(c).Parsed?
    ensures Trace(cfg, Init(cfg, now), es)
    ensures var s := Final(cfg, Init(cfg, now), es);
            && s.controller.Idle? && s.status.Stopped? && |s.runs| == 1
            && s.runs[0] == Run(Done(Value(cfg.parse(c).value)), Some(c), Registered)
  {
    var s0 := Init(cfg, now);
    es := StartUninterrupted(cfg, s0);
    Extend(cfg, s0, es, Begin(0));
    es := es + [Begin(0)];
    Extend(cfg, s0, es, CommandReturns(0, c));
    es := es + [CommandReturns(0, c)];
    TraceKeepsInv(cfg, s0, es);
    var fs := StopUninterrupted(cfg, Final(cfg, s0, es));
    Append(cfg, s0, es, fs);
    es := es + fs;
    Extend(cfg, s0, es, Record(0));
    es := es + [Record(0)];
    Extend(cfg, s0, es, Decide(0));
    es := es + [Decide(0)];
  }

  /** ERROR can show before the failure does: the callback writes the status first. */
  lemma ErrorCanShowNothing(cfg: Config, now: real, c: CommandResult) returns (es: seq<Event>)
    requires cfg.maxWorkers > 0 && !c.Success()
    ensures Trace(cfg, Init(cfg, now), es)
    ensures var s := Final(cfg, Init(cfg, now), es);
            s.controller.Idle? && s.status.Error? && s.result == cfg.empty && s.commandResult == Some(c)
  {
    var s0 := Init(cfg, now);
    es := StartUninterrupted(cfg, s0);
    var steps := [Begin(0), CommandReturns(0, c), Record(0), Decide(0), CallbackBegins(0), CallbackStep(0)];
    for i := 0 to |steps|
      invariant Trace(cfg, s0, es)
      invariant var s := Final(cfg, s0, es);
                && s.controller.Idle? && s.result == cfg.empty && !s.cancel
                && s.status == (if i == 6 then Error else Running)
                && s.commandResult == (if i < 3 then None else Some(c))
                && s.runs == [Run(if i == 0 then Queued else if i == 1 then Executing else if i == 2 then Returned
                                  else if i == 3 then Recorded else Done(Raised(cfg.failureDetail(c))),
                                  if i < 2 then None else Some(c),
                                  if i < 5 then Registered else Writing(i - 5))]
    {
      Extend(cfg, s0, es, steps[i]);
      es := es + [steps[i]];
    }
  }

  // ---------------------------------------------------------------------------------------------
  // When STOPPED stays

  /** Whatever this run still does, its callback writes no status but STOPPED. */
  predicate Harmless(run: Run, cancel: bool) {
    match run.phase
    case Done(outcome) => outcome.WorkloadCancelled? || outcome.FutureCancelled? || !StatusPending(run)
    case Returned => cancel && run.returned.Some? && !run.returned.value.Success()
    case Recorded => cancel && run.returned.Some? && !run.returned.value.Success()
    case _ => false
  }

  ghost predicate AllHarmless(s: State) {
    forall r :: 0 <= r < |s.runs| ==> Harmless(s.runs[r], s.cancel)
  }

  /** STOPPED with nothing left that could write anything else, between or within calls of stop(). */
  ghost predicate StaysStopped(s: State) {
    s.status.Stopped? && !s.controller.Starting? && AllHarmless(s)
  }

  ghost predicate NoStart(es: seq<Event>) {
    forall e :: e in es ==> !e.StartCall?
  }

  lemma StopStepKeepsStopped(cfg: Config, s: State)
    requires Inv(cfg, s) && StaysStopped(s) && s.controller.Stopping?
    ensures StaysStopped(StopStep(s, s.controller.step))
  {
    assert s.completionFut.Some? ==> Harmless(s.runs[s.completionFut.value], s.cancel);
  }

  lemma RunStepKeepsStopped(cfg: Config, s: State, e: Event)
    requires Inv(cfg, s) && StaysStopped(s) && Enabled(cfg, s, e) && (IsWorkerEvent(e) || IsCallbackEvent(e))
    ensures StaysStopped(Apply(cfg, s, e))
  {
    assert RunOk(cfg, s.runs[e.run]) && Harmless(s.runs[e.run], s.cancel);
  }

  lemma StepKeepsStopped(cfg: Config, s: State, e: Event)
    requires Inv(cfg, s) && StaysStopped(s) && Enabled(cfg, s, e) && !e.StartCall?
    ensures StaysStopped(Apply(cfg, s, e))
  {
    if e.ControllerStep? {
      StopStepKeepsStopped(cfg, s);
    } else if IsWorkerEvent(e) || IsCallbackEvent(e) {
      RunStepKeepsStopped(cfg, s, e);
    }
  }

  lemma {:induction false} TraceKeepsStopped(cfg: Config, s: State, es: seq<Event>)
    requires Inv(cfg, s) && StaysStopped(s) && Trace(cfg, s, es) && NoStart(es)
    ensures StaysStopped(Final(cfg, s, es))
    decreases es
  {
    if es == [] {
    } else {
      assert es[0] in es;
      StepKeepsInv(cfg, s, es[0]);
      StepKeepsStopped(cfg, s, es[0]);
      TraceKeepsStopped(cfg, Apply(cfg, s, es[0]), es[1..]);
    }
  }

  /** A step that writes another status, or keeps some run harmful. */
  ghost predicate Harms(cfg: Config, s: State, e: Event, r: nat) {
    && Enabled(cfg, s, e) && (IsWorkerEvent(e) || IsCallbackEvent(e))
    && var s' := Apply(cfg, s, e);
       !s'.status.Stopped? || (r < |s'.runs| && !Harmless(s'.runs[r], s'.cancel))
  }

  /** A harmful run that is done has a status write ahead. */
  lemma DoneRunHarms(cfg: Config, s: State, r: nat) returns (e: Event)
    requires Inv(cfg, s) && s.controller.Idle?
    requires r < |s.runs| && !Harmless(s.runs[r], s.cancel) && s.runs[r].phase.Done?
    ensures Harms(cfg, s, e, r)
  {
    assert RunOk(cfg, s.runs[r]) && Settled(s, r);
    e := if s.runs[r].callback.Registered? then CallbackBegins(r) else CallbackStep(r);
  }

  lemma BusyRunHarms(cfg: Config, s: State, r: nat) returns (e: Event)
    requires Inv(cfg, s) && r < |s.runs| && !Harmless(s.runs[r], s.cancel) && Occupies(s.runs[r])
    ensures Harms(cfg, s, e, r)
  {
    assert RunOk(cfg, s.runs[r]) && Settled(s, r);
    match s.runs[r].phase
    case Executing => e := RunRaises(r, "");
    case Returned => e := Record(r);
    case Recorded => e := Decide(r);
  }

  /** A busy worker that is harmless goes on, and leaves the other runs as they are. */
  lemma BusyRunGoesOn(cfg: Config, s: State, o: nat, r: nat) returns (e: Event)
    requires Inv(cfg, s) && o < |s.runs| && Occupies(s.runs[o]) && Harmless(s.runs[o], s.cancel)
    requires r < |s.runs| && r != o && !Harmless(s.runs[r], s.cancel)
    ensures Harms(cfg, s, e, r)
  {
    assert RunOk(cfg, s.runs[o]);
    e := if s.runs[o].phase.Returned? then Record(o) else Decide(o);
  }

  /** A queued run gets a worker, or waits for one that goes on. */
  lemma QueuedRunHarms(cfg: Config, s: State, r: nat) returns (e: Event, q: nat)
    requires Inv(cfg, s) && cfg.maxWorkers > 0 && r < |s.runs| && s.runs[r].phase.Queued?
    ensures Harms(cfg, s, e, q)
  {
    if Busy(s.runs) < cfg.maxWorkers {
      q := FirstQueued(s.runs, r);
      e := Begin(q);
    } else {
      var o := BusyMeansOccupied(s.runs);
      if Harmless(s.runs[o], s.cancel) {
        q := r;
        e := BusyRunGoesOn(cfg, s, o, r);
      } else {
        q := o;
        e := BusyRunHarms(cfg, s, o);
      }
    }
  }

  lemma HarmfulRunMoves(cfg: Config, s: State, r: nat) returns (e: Event, q: nat)
    requires Inv(cfg, s) && s.controller.Idle? && cfg.maxWorkers > 0
    requires r < |s.runs| && !Harmless(s.runs[r], s.cancel)
    ensures Harms(cfg, s, e, q)
  {
    assert Settled(s, r);
    q := r;
    if s.runs[r].phase.Done? {
      e := DoneRunHarms(cfg, s, r);
    } else if s.runs[r].phase.Queued? {
      e, q := QueuedRunHarms(cfg, s, r);
    } else {
      e := BusyRunHarms(cfg, s, r);
    }
  }

  lemma {:induction false} HarmfulRunHarms(cfg: Config, s: State, r: nat) returns (es: seq<Event>)
    requires Inv(cfg, s) && s.controller.Idle? && cfg.maxWorkers > 0
    requires r < |s.runs| && !Harmless(s.runs[r], s.cancel)
    ensures Trace(cfg, s, es) && NoStart(es) && !Final(cfg, s, es).status.Stopped?
    decreases Work(s)
  {
    var e, q := HarmfulRunMoves(cfg, s, r);
    var s' := Apply(cfg, s, e);
    if !s'.status.Stopped? {
      es := [e];
      assert es[1..] == [] && Final(cfg, s', []) == s';
    } else {
      StepKeepsInv(cfg, s, e);
      ProgressUsesWork(cfg, s, e);
      WorkNotNegative(cfg, s');
      var more := HarmfulRunHarms(cfg, s', q);
      es := [e] + more;
      assert es[1..] == more;
    }
  }

  lemma WorkNotNegative(cfg: Config, s: State)
    requires Inv(cfg, s)
    ensures Work(s) >= 0
  {
  }

  /**
   STOPPED stays until the next start(), whatever happens, exactly when no run is left that could
   write another status: each has made its status write, or ends as cancelled, or has a failed
   command and finds the cancel flag set.
   */
  lemma StoppedStaysIffAllHarmless(cfg: Config, s: State)
    requires Inv(cfg, s) && s.controller.Idle? && s.status.Stopped? && cfg.maxWorkers > 0
    ensures AllHarmless(s) <==>
            forall es :: Trace(cfg, s, es) && NoStart(es) ==> Final(cfg, s, es).status.Stopped?
  {
    if AllHarmless(s) {
      forall es | Trace(cfg, s, es) && NoStart(es) ensures Final(cfg, s, es).status.Stopped? {
        TraceKeepsStopped(cfg, s, es);
      }
    } else {
      var r :| 0 <= r < |s.runs| && !Harmless(s.runs[r], s.cancel);
      var es := HarmfulRunHarms(cfg, s, r);
    }
  }

  /** So after any history: a controller that sees STOPPED between calls can tell whether it stays. */
  lemma StoppedStaysAfterAnyHistory(cfg: Config, now: real, es: seq<Event>)
    requires cfg.maxWorkers > 0 && Trace(cfg, Init(cfg, now), es)
    ensures var s := Final(cfg, Init(cfg, now), es);
            s.controller.Idle? && s.status.Stopped? ==>
              (AllHarmless(s) <==>
               forall fs :: Trace(cfg, s, fs) && NoStart(fs) ==> Final(cfg, s, fs).status.Stopped?)
  {
    var s := Final(cfg, Init(cfg, now), es);
    TraceKeepsInv(cfg, Init(cfg, now), es);
    if s.controller.Idle? && s.status.Stopped? {
      StoppedStaysIffAllHarmless(cfg, s);
    }
  }

  // ---------------------------------------------------------------------------------------------
  // When a restart shows only its own run's completion

  /** This run can still turn the status into COMPLETED. */
  predicate MayComplete(cfg: Config, run: Run) {
    match run.phase
    case Done(outcome) => outcome.Value? && StatusPending(run)
    case Returned => CompletesWith(cfg, run)
    case Recorded => CompletesWith(cfg, run)
    case _ => true
  }

  predicate CompletesWith(cfg: Config, run: Run) {
    run.returned.Some? && run.returned.value.Success() && cfg.parse(run.returned.value).Parsed?
  }

  /** The run ended with a value and has written COMPLETED. */
  predicate Delivered(run: Run) {
    run.phase.Done? && run.phase.outcome.Value? && !StatusPending(run)
  }

  /** A controller between calls sees COMPLETED only once the latest run has delivered. */
  predicate ShowsOwnCompletion(s: State) {
    s.controller.Idle? && s.status.Completed? ==> s.runs != [] && Delivered(Last(s.runs))
  }

  /** From start() on: no older run can complete, and COMPLETED, once RUNNING was set, is the latest run's. */
  ghost predicate OnlyLatestCompletes(cfg: Config, s: State) {
    && s.runs != []
    && (forall r :: 0 <= r < |s.runs| - 1 ==> !MayComplete(cfg, s.runs[r]))
    && (s.status.Completed? && !(s.controller.Starting? && s.controller.step <= 2) ==> Delivered(Last(s.runs)))
  }

  lemma StartStepKeepsOnlyLatest(cfg: Config, s: State)
    requires Inv(cfg, s) && OnlyLatestCompletes(cfg, s) && s.controller.Starting?
    ensures OnlyLatestCompletes(cfg, StartStep(cfg, s, s.controller.step))
  {
    var last := |s.runs| - 1;
    assert RunOk(cfg, s.runs[last]) && Settled(s, last);
  }

  lemma StopStepKeepsOnlyLatest(cfg: Config, s: State)
    requires Inv(cfg, s) && OnlyLatestCompletes(cfg, s) && s.controller.Stopping?
    ensures OnlyLatestCompletes(cfg, StopStep(s, s.controller.step))
  {
  }

  lemma RunStepKeepsOnlyLatest(cfg: Config, s: State, e: Event)
    requires Inv(cfg, s) && OnlyLatestCompletes(cfg, s) && Enabled(cfg, s, e)
    requires IsWorkerEvent(e) || IsCallbackEvent(e)
    ensures OnlyLatestCompletes(cfg, Apply(cfg, s, e))
  {
    assert RunOk(cfg, s.runs[e.run]) && Settled(s, e.run);
  }

  lemma StepKeepsOnlyLatest(cfg: Config, s: State, e: Event)
    requires Inv(cfg, s) && OnlyLatestCompletes(cfg, s) && Enabled(cfg, s, e) && !e.StartCall?
    ensures OnlyLatestCompletes(cfg, Apply(cfg, s, e))
  {
    if e.ControllerStep? {
      if s.controller.Starting? { StartStepKeepsOnlyLatest(cfg, s); } else { StopStepKeepsOnlyLatest(cfg, s); }
    } else if IsWorkerEvent(e) || IsCallbackEvent(e) {
      RunStepKeepsOnlyLatest(cfg, s, e);
    }
  }

  lemma {:induction false} TraceKeepsOnlyLatest(cfg: Config, s: State, es: seq<Event>)
    requires Inv(cfg, s) && OnlyLatestCompletes(cfg, s) && Trace(cfg, s, es) && NoStart(es)
    ensures OnlyLatestCompletes(cfg, Final(cfg, s, es))
    decreases es
  {
    if es == [] {
    } else {
      assert es[0] in es;
      StepKeepsInv(cfg, s, es[0]);
      StepKeepsOnlyLatest(cfg, s, es[0]);
      TraceKeepsOnlyLatest(cfg, Apply(cfg, s, es[0]), es[1..]);
    }
  }

  /** The latest run still waits in the queue, and the older run q may complete. */
  predicate Overtakes(cfg: Config, s: State, q: nat) {
    q + 1 < |s.runs| && Last(s.runs).phase.Queued? && MayComplete(cfg, s.runs[q])
  }

  /** A step of an older run that shows COMPLETED, or keeps some older run able to. */
  ghost predicate Nears(cfg: Config, s: State, e: Event, q: nat) {
    && Enabled(cfg, s, e) && (IsWorkerEvent(e) || IsCallbackEvent(e))
    && var s' := Apply(cfg, s, e);
       && s'.runs != [] && Last(s'.runs).phase.Queued?
       && (s'.status.Completed? || Overtakes(cfg, s', q))
  }

  predicate CanSucceed(cfg: Config, c: CommandResult) {
    c.Success() && cfg.parse(c).Parsed?
  }

  lemma DoneRunNears(cfg: Config, s: State, q: nat) returns (e: Event)
    requires Inv(cfg, s) && s.controller.Idle? && Overtakes(cfg, s, q) && s.runs[q].phase.Done?
    ensures Nears(cfg, s, e, q)
  {
    assert RunOk(cfg, s.runs[q]) && Settled(s, q);
    e := if s.runs[q].callback.Registered? then CallbackBegins(q) else CallbackStep(q);
  }

  lemma BusyRunNears(cfg: Config, s: State, q: nat, c: CommandResult) returns (e: Event)
    requires Inv(cfg, s) && Overtakes(cfg, s, q) && Occupies(s.runs[q]) && CanSucceed(cfg, c)
    ensures Nears(cfg, s, e, q)
  {
    assert RunOk(cfg, s.runs[q]) && Settled(s, q);
    match s.runs[q].phase
    case Executing => e := CommandReturns(q, c);
    case Returned => e := Record(q);
    case Recorded => e := Decide(q);
  }

  /** A busy run that cannot complete goes on, and frees its worker in the end. */
  lemma QuietRunNears(cfg: Config, s: State, o: nat, q: nat) returns (e: Event)
    requires Inv(cfg, s) && Overtakes(cfg, s, q)
    requires o < |s.runs| && Occupies(s.runs[o]) && !MayComplete(cfg, s.runs[o])
    ensures Nears(cfg, s, e, q)
  {
    assert RunOk(cfg, s.runs[o]);
    e := if s.runs[o].phase.Returned? then Record(o) else Decide(o);
  }

  lemma QueuedRunNears(cfg: Config, s: State, q: nat, c: CommandResult) returns (e: Event, r: nat)
    requires Inv(cfg, s) && cfg.maxWorkers > 0 && CanSucceed(cfg, c)
    requires Overtakes(cfg, s, q) && s.runs[q].phase.Queued?
    ensures Nears(cfg, s, e, r)
  {
    if Busy(s.runs) < cfg.maxWorkers {
      r := FirstQueued(s.runs, q);
      e := Begin(r);
    } else {
      var o := BusyMeansOccupied(s.runs);
      if MayComplete(cfg, s.runs[o]) {
        r := o;
        e := BusyRunNears(cfg, s, o, c);
      } else {
        r := q;
        e := QuietRunNears(cfg, s, o, q);
      }
    }
  }

  lemma OldRunMoves(cfg: Config, s: State, q: nat, c: CommandResult) returns (e: Event, r: nat)
    requires Inv(cfg, s) && s.controller.Idle? && cfg.maxWorkers > 0 && CanSucceed(cfg, c) && Overtakes(cfg, s, q)
    ensures Nears(cfg, s, e, r)
  {
    assert Settled(s, q);
    r := q;
    if s.runs[q].phase.Done? {
      e := DoneRunNears(cfg, s, q);
    } else if s.runs[q].phase.Queued? {
      e, r := QueuedRunNears(cfg, s, q, c);
    } else {
      e := BusyRunNears(cfg, s, q, c);
    }
  }

  /** An older run that may complete can do so before the latest one leaves the queue. */
  lemma {:induction false} OldRunCompletes(cfg: Config, s: State, q: nat, c: CommandResult) returns (es: seq<Event>)
    requires Inv(cfg, s) && s.controller.Idle? && cfg.maxWorkers > 0 && CanSucceed(cfg, c) && Overtakes(cfg, s, q)
    ensures Trace(cfg, s, es) && NoStart(es) && !ShowsOwnCompletion(Final(cfg, s, es))
    decreases Work(s)
  {
    var e, r := OldRunMoves(cfg, s, q, c);
    var s' := Apply(cfg, s, e);
    if s'.status.Completed? {
      es := [e];
      assert es[1..] == [] && Final(cfg, s', []) == s';
    } else {
      StepKeepsInv(cfg, s, e);
      ProgressUsesWork(cfg, s, e);
      WorkNotNegative(cfg, s');
      var more := OldRunCompletes(cfg, s', r, c);
      es := [e] + more;
      assert es[1..] == more;
    }
  }

  /** A restart over such a run shows its completion as the new run's. */
  lemma RestartIsOvertaken(cfg: Config, s: State, q: nat, c: CommandResult) returns (es: seq<Event>)
    requires Inv(cfg, s) && s.controller.Idle? && !s.status.Running? && cfg.maxWorkers > 0 && CanSucceed(cfg, c)
    requires q < |s.runs| && MayComplete(cfg, s.runs[q])
    ensures var s' := Apply(cfg, s, StartCall);
            Trace(cfg, s', es) && NoStart(es) && !ShowsOwnCompletion(Final(cfg, s', es))
  {
    var s' := Apply(cfg, s, StartCall);
    var calls := StartSteps(cfg, s);
    StepKeepsInv(cfg, s, StartCall);
    TraceKeepsInv(cfg, s', calls);
    var more := OldRunCompletes(cfg, Final(cfg, s', calls), q, c);
    Append(cfg, s', calls, more);
    es := calls + more;
  }

  /** No run could still turn the status into COMPLETED. */
  ghost predicate NoneMayComplete(cfg: Config, s: State) {
    forall r :: 0 <= r < |s.runs| ==> !MayComplete(cfg, s.runs[r])
  }

  /**
   After a start(), until the next one, COMPLETED is always the new run's own exactly when no earlier
   run could still complete at the call: none has a value undelivered, none has returned a success that
   parses, and all have returned. Some command result must succeed for a completion to be possible.
   */
  lemma RestartIsSafeIffNoneMayComplete(cfg: Config, s: State, c: CommandResult)
    requires Inv(cfg, s) && s.controller.Idle? && !s.status.Running? && cfg.maxWorkers > 0 && CanSucceed(cfg, c)
    ensures NoneMayComplete(cfg, s) <==>
            forall es :: Trace(cfg, Apply(cfg, s, StartCall), es) && NoStart(es) ==>
                           ShowsOwnCompletion(Final(cfg, Apply(cfg, s, StartCall), es))
  {
    var s' := Apply(cfg, s, StartCall);
    if NoneMayComplete(cfg, s) {
      StepKeepsInv(cfg, s, StartCall);
      forall es | Trace(cfg, s', es) && NoStart(es) ensures ShowsOwnCompletion(Final(cfg, s', es)) {
        TraceKeepsOnlyLatest(cfg, s', es);
      }
    } else {
      var q :| 0 <= q < |s.runs| && MayComplete(cfg, s.runs[q]);
      var es := RestartIsOvertaken(cfg, s, q, c);
    }
  }

  /** So after any history in which a controller is about to start again. */
  lemma RestartIsSafeAfterAnyHistory(cfg: Config, now: real, es: seq<Event>, c: CommandResult)
    requires cfg.maxWorkers > 0 && CanSucceed(cfg, c) && Trace(cfg, Init(cfg, now), es)
    ensures var s := Final(cfg, Init(cfg, now), es);
            s.controller.Idle? && !s.status.Running? ==>
              (NoneMayComplete(cfg, s) <==>
               forall fs :: Trace(cfg, Apply(cfg, s, StartCall), fs) && NoStart(fs) ==>
                              ShowsOwnCompletion(Final(cfg, Apply(cfg, s, StartCall), fs)))
  {
    var s := Final(cfg, Init(cfg, now), es);
    TraceKeepsInv(cfg, Init(cfg, now), es);
    if s.controller.Idle? && !s.status.Running? {
      RestartIsSafeIffNoneMayComplete(cfg, s, c);
    }
  }

  // ---------------------------------------------------------------------------------------------
  // The object itself

  /** The workload as its methods update it, one call at a time; the lemmas above add the interleavings. */
  class Workload {
    const cfg: Config
    var status: Status
    var result: string
    var commandResult: Option<CommandResult>
    var startTime: real
    var endTime: real
    var cancelEvent: bool
    var completionFut: Option<nat>
    var runs: seq<Run>  // every future the executor was given

    constructor (cfg: Config)
      ensures this.cfg == cfg
      ensures forall now :: View(now) == Init(cfg, now)
    {
      this.cfg := cfg;
      status, result, commandResult := Stopped, cfg.empty, None;
      startTime, endTime, cancelEvent, completionFut, runs := 0.0, 0.0, false, None, [];
    }

    ghost function View(now: real): State
      reads this
    {
      State(status, result, commandResult, startTime, endTime, cancelEvent, completionFut, runs, Idle, None, now)
    }

    method Start(now: real) returns (raised: bool)
      modifies this
      ensures raised == old(status.Running?)
      ensures View(now) == if raised then old(View(now)) else Started(cfg, old(View(now)))
    {
      if status.Running? {
        return true;
      }
      raised := false;
      cancelEvent := false;
      startTime := now;
      status := Running;
      result := cfg.empty;
      commandResult := None;
      runs := runs + [Run(Queued, None, Unregistered)];
      completionFut := Some(|runs| - 1);
      runs := runs[|runs| - 1 := Run(Queued, None, Registered)];
    }

    method OnCommandDone(r: nat, now: real)
      requires r < |runs| && runs[r].phase.Done?
      modifies this
      ensures View(now) == CalledBack(cfg, old(View(now)), r)
    {
      match runs[r].phase.outcome {
        case WorkloadCancelled =>
          status := Stopped;
          result := cfg.empty;
          endTime := now;
        case FutureCancelled =>
          status := Stopped;
          endTime := now;
        case Raised(m) =>
          status := Error;
          result := m;
          endTime := now;
        case Value(v) =>
          endTime := now;
          result := v;
          status := Completed;
      }
      runs := runs[r := runs[r].(callback := Writing(WriteCount(runs[r].phase.outcome)))];
    }

    method Stop(now: real)
      modifies this
      ensures View(now) == StoppedState(cfg, old(View(now)))
    {
      cancelEvent := true;
      if completionFut.Some? && completionFut.value < |runs| && runs[completionFut.value].phase.Queued? {
        var r := completionFut.value;
        runs := runs[r := runs[r].(phase := Done(FutureCancelled))];
        OnCommandDone(r, now);
      }
      status := Stopped;
      completionFut := None;
    }
  }
}
