/**
 The timed loops of the helpers: running a command that can be cancelled and times out, and polling a
 condition. Times are reals, the clock never goes back, and a wait that times out took its timeout.
 */
module TimedLoops {
  import opened Common
  import opened Text

  /** timeout / interval rounded up, and 0 for a timeout already over. */
  function MostRounds(timeout: real, interval: real): nat
    requires interval > 0.0
  {
    if timeout <= 0.0 then 0
    else
      QuotientIsPositive(timeout, interval);
      -((-(timeout / interval)).Floor)
  }

  lemma QuotientIsPositive(timeout: real, interval: real)
    requires timeout > 0.0 && interval > 0.0
    ensures timeout / interval > 0.0
  {
  }

  /** A round starts before the timeout exactly when fewer than the most rounds went before it. */
  lemma RoundsFit(n: nat, timeout: real, interval: real)
    requires interval > 0.0
    ensures n as real * interval < timeout <==> n < MostRounds(timeout, interval)
  {
    if timeout > 0.0 {
      Compare(n as real, timeout, interval, timeout / interval);
    } else {
      Compare(n as real, 0.0, interval, 0.0);
    }
  }

  lemma Compare(n: real, timeout: real, interval: real, quotient: real)
    requires interval > 0.0 && timeout == quotient * interval
    ensures n * interval < timeout <==> n < quotient
  {
  }

  lemma Times(a: real, b: real)
    requires a > 0.0 && b > 0.0
    ensures a * b > 0.0
  {
  }

  /** n intervals, one after the other. */
  ghost function Rounds(n: nat, interval: real): real {
    if n == 0 then 0.0 else Rounds(n - 1, interval) + interval
  }

  lemma {:induction false} RoundsMultiply(n: nat, interval: real)
    ensures Rounds(n, interval) == n as real * interval
  {
    if n == 0 {
    } else {
      RoundsMultiply(n - 1, interval);
      OneMore(n - 1, interval);
    }
  }

  lemma OneMore(n: nat, interval: real)
    ensures (n + 1) as real * interval == n as real * interval + interval
  {
  }

  lemma RoundStarts(n: nat, timeout: real, interval: real)
    requires interval > 0.0 && Rounds(n, interval) < timeout
    ensures n < MostRounds(timeout, interval)
  {
    RoundsMultiply(n, interval);
    RoundsFit(n, timeout, interval);
  }

  function Min(a: real, b: real): real { if a <= b then a else b }

  function Max(a: real, b: real): real { if a >= b then a else b }

  // ---------------------------------------------------------------------------------------------
  // A command

  datatype Sig = Term | Kill

  /** How waiting for the command ended. */
  datatype Outcome = Exited(code: Option<int>, out: string, err: string) | Expired | Raised

  /** Looking whether the run was cancelled, waiting for the command (the clock read last), signalling its group. */
  datatype Act =
    | Asked(cancelled: bool)
    | Wait(input: Option<string>, timeout: real, clock: real, outcome: Outcome)
    | Signal(sig: Sig)

  datatype Spawned = Running | NotFound | NotStarted

  /** The child process, the clock and its last reading, the event another thread can set; what was done, in order. */
  class Process {
    var now: real
    var clock: real
    var spawned: Option<Spawned>
    var acts: seq<Act>

    constructor ()
      ensures spawned == None && acts == []
    {
      now, clock, spawned, acts := 0.0, 0.0, None, [];
    }

    /** time.monotonic() */
    method Clock() returns (t: real)
      modifies this`now, this`clock
      ensures t == now == clock && now >= old(now)
    {
      var passed: real := *;
      now := now + Max(passed, 0.0);
      clock := now;
      t := now;
    }

    /** Popen */
    method Spawn() returns (outcome: Spawned)
      modifies this`now, this`spawned
      ensures now >= old(now) && spawned == Some(outcome)
    {
      outcome := *;
      spawned := Some(outcome);
      var passed: real := *;
      now := now + Max(passed, 0.0);
    }

    /** proc.communicate */
    method Communicate(input: Option<string>, timeout: real) returns (outcome: Outcome)
      modifies this`now, this`acts
      ensures now >= old(now) && (outcome.Expired? ==> now >= old(now) + timeout)
      ensures acts == old(acts) + [Wait(input, timeout, clock, outcome)]
    {
      outcome := *;
      var passed: real := *;
      now := now + Max(if outcome.Expired? then Max(passed, timeout) else passed, 0.0);
      acts := acts + [Wait(input, timeout, clock, outcome)];
    }

    /** killpg, which a group already gone ignores. */
    method Send(sig: Sig)
      modifies this`acts
      ensures acts == old(acts) + [Signal(sig)]
    {
      acts := acts + [Signal(sig)];
    }

    /** cancel_event.is_set() */
    method CancelRequested() returns (requested: bool)
      modifies this`acts
      ensures acts == old(acts) + [Asked(requested)]
    {
      requested := *;
      acts := acts + [Asked(requested)];
    }
  }

  datatype Ending = Finished | Cancelled | TimedOut | Failed | CommandNotFound

  /** What the ending says goes before the rest of stderr. */
  datatype CommandResult = CommandResult(returncode: int, ending: Ending, stdout: string, stderr: string)

  /** The result for what the last wait, if any, saw the command write. */
  function Answer(returncode: int, ending: Ending, outcome: Outcome): CommandResult {
    match outcome
    case Exited(_, out, err) => CommandResult(returncode, ending, Strip(out), Strip(err))
    case _ => CommandResult(returncode, ending, "", "")
  }

  /** What the command wrote, trimmed, when the last wait saw it exit, and nothing otherwise. */
  ghost predicate Reports(result: CommandResult, acts: seq<Act>) {
    if acts != [] && Last(acts).Wait? && Last(acts).outcome.Exited?
    then result.stdout == Strip(Last(acts).outcome.out) && result.stderr == Strip(Last(acts).outcome.err)
    else result.stdout == "" && result.stderr == ""
  }

  lemma AnswerReports(returncode: int, ending: Ending, acts: seq<Act>)
    requires acts != [] && Last(acts).Wait?
    ensures Reports(Answer(returncode, ending, Last(acts).outcome), acts)
  {
  }

  /** The group is asked to end, and killed only when half a minute was not enough. */
  ghost predicate Terminates(acts: seq<Act>) {
    && |acts| >= 2 && acts[0] == Signal(Term) && acts[1].Wait? && acts[1].timeout == 30.0 && acts[1].input.None?
    && if acts[1].outcome.Expired?
       then |acts| == 4 && acts[2] == Signal(Kill) && acts[3].Wait? && acts[3].timeout == 30.0 && acts[3].input.None?
       else |acts| == 2
  }

  predicate LostAfterKill(acts: seq<Act>) {
    |acts| == 4 && acts[3].Wait? && acts[3].outcome.Raised?
  }

  /** _finish_terminated; an exception from the wait after the kill goes to the caller, and there is no result. */
  method FinishTerminated(p: Process, ending: Ending) returns (result: Option<CommandResult>)
    modifies p`now, p`acts
    ensures p.now >= old(p.now)
    ensures old(p.acts) <= p.acts && Terminates(p.acts[|old(p.acts)|..])
    ensures result.None? <==> LostAfterKill(p.acts[|old(p.acts)|..])
    ensures result.Some? ==>
              result.value.returncode == -1 && result.value.ending == ending && Reports(result.value, p.acts)
  {
    ghost var before := p.acts;
    p.Send(Term);
    var outcome := p.Communicate(None, 30.0);
    assert p.acts[|before|..] == [Signal(Term), Wait(None, 30.0, p.clock, outcome)];
    if outcome.Expired? {
      p.Send(Kill);
      var last := p.Communicate(None, 30.0);
      assert p.acts[|before|..] ==
             [Signal(Term), Wait(None, 30.0, p.clock, outcome), Signal(Kill), Wait(None, 30.0, p.clock, last)];
      if last.Raised? {
        return None;
      }
      outcome := last;
    }
    AnswerReports(-1, ending, p.acts);
    result := Some(Answer(-1, ending, outcome));
  }

  /** What a run is given, and when its time is over. */
  datatype Setup = Setup(stdin: Option<string>, pollInterval: real, deadline: real)

  /** A wait of the main loop: at most a poll interval and hardly past the deadline, the input going with the first. */
  ghost predicate Polled(wait: Act, first: bool, setup: Setup) {
    && wait.Wait? && 0.0 < wait.timeout <= setup.pollInterval
    && wait.timeout <= Max(setup.deadline - wait.clock, 0.01)
    && wait.input == if first then setup.stdin else None
  }

  /** Round i of the main loop: not cancelled, so a wait. */
  ghost predicate Polls(acts: seq<Act>, i: nat, setup: Setup)
    requires 2 * i + 1 < |acts|
  {
    acts[2 * i] == Asked(false) && Polled(acts[2 * i + 1], i == 0, setup)
  }

  ghost predicate Expires(acts: seq<Act>, i: nat)
    requires 2 * i + 1 < |acts|
  {
    acts[2 * i + 1].Wait? && acts[2 * i + 1].outcome.Expired?
  }

  /** These rounds of the main loop, whose waits all but perhaps the last expired. */
  ghost predicate AllPoll(acts: seq<Act>, polls: nat, setup: Setup) {
    && |acts| == 2 * polls
    && (forall i: nat :: i < polls ==> Polls(acts, i, setup))
    && (forall i: nat :: i < polls - 1 ==> Expires(acts, i))
  }

  /** So far every wait expired. */
  ghost predicate StillPolls(acts: seq<Act>, polls: nat, setup: Setup) {
    AllPoll(acts, polls, setup) && (polls > 0 ==> Expires(acts, polls - 1))
  }

  lemma AllPollSnoc(acts: seq<Act>, polls: nat, act: Act, setup: Setup)
    requires StillPolls(acts, polls, setup)
    requires Polled(act, polls == 0, setup)
    ensures AllPoll(acts + [Asked(false), act], polls + 1, setup)
    ensures act.outcome.Expired? ==> StillPolls(acts + [Asked(false), act], polls + 1, setup)
  {
    forall i: nat | i < polls + 1 ensures Polls(acts + [Asked(false), act], i, setup) {
      assert i < polls ==> Polls(acts, i, setup);
    }
    forall i: nat | i < polls ensures Expires(acts + [Asked(false), act], i) {
      assert Expires(acts, i);
    }
  }

  /** What the acts say of a run that began and ended so, after this many rounds of the main loop. */
  ghost predicate Explains(spawned: Spawned, acts: seq<Act>, polls: nat, result: Option<CommandResult>)
    requires 2 * polls <= |acts|
  {
    match if result.Some? then result.value.ending else Cancelled
    case CommandNotFound => spawned.NotFound? && acts == []
    case Finished =>
      && spawned.Running? && 0 < 2 * polls == |acts| && Last(acts).Wait? && Last(acts).outcome.Exited?
      && result.value.returncode == if Last(acts).outcome.code.Some? then Last(acts).outcome.code.value else -1
    case Failed =>
      && 2 * polls == |acts|
      && if polls == 0 then spawned.NotStarted?
         else spawned.Running? && Last(acts).Wait? && Last(acts).outcome.Raised?
    case _ =>
      && spawned.Running? && 2 * polls < |acts| && (polls > 0 ==> Expires(acts, polls - 1))
      && acts[2 * polls].Asked? && Terminates(acts[2 * polls + 1..])
      && (result.None? <==> LostAfterKill(acts[2 * polls + 1..]))
      && (result.Some? ==> result.value.ending == if acts[2 * polls].cancelled then Cancelled else TimedOut)
  }

  lemma PollsNotCancelled(acts: seq<Act>, polls: nat, setup: Setup, i: nat)
    requires AllPoll(acts, polls, setup) && i < |acts|
    ensures acts[i] != Asked(true)
  {
    assert Polls(acts, i / 2, setup);
  }

  /** Only the termination follows a look that finds the run cancelled, and exactly such a run is reported cancelled. */
  ghost predicate StopsWhenCancelled(acts: seq<Act>, result: Option<CommandResult>) {
    && (forall i :: 0 <= i < |acts| && acts[i] == Asked(true) ==> Terminates(acts[i + 1..]))
    && (result.Some? ==> (result.value.ending == Cancelled <==> Asked(true) in acts))
  }

  lemma CancelledWhenAsked(acts: seq<Act>, polls: nat, setup: Setup, result: Option<CommandResult>)
    requires 2 * polls <= |acts| && AllPoll(acts[..2 * polls], polls, setup)
    requires Explains(Running, acts, polls, result)
    ensures StopsWhenCancelled(acts, result)
  {
    forall i | 0 <= i < |acts| ensures acts[i] == Asked(true) ==> i == 2 * polls {
      if i < 2 * polls {
        PollsNotCancelled(acts[..2 * polls], polls, setup, i);
      } else if i > 2 * polls {
        assert acts[i] == acts[2 * polls + 1..][i - 2 * polls - 1];
      }
    }
  }

  /** The acts are rounds of the main loop and what its ending takes; finding the run cancelled ends it so. */
  ghost predicate Accounts(spawned: Spawned, acts: seq<Act>, polls: nat, setup: Setup, result: Option<CommandResult>) {
    && 2 * polls <= |acts| && AllPoll(acts[..2 * polls], polls, setup)
    && Explains(spawned, acts, polls, result)
    && StopsWhenCancelled(acts, result)
  }

  lemma TerminationAccounts(waited: seq<Act>, polls: nat, cancelled: bool, acts: seq<Act>, setup: Setup,
                            result: Option<CommandResult>)
    requires StillPolls(waited, polls, setup)
    requires waited + [Asked(cancelled)] <= acts && Terminates(acts[2 * polls + 1..])
    requires result.None? <==> LostAfterKill(acts[2 * polls + 1..])
    requires result.Some? ==> result.value.ending == if cancelled then Cancelled else TimedOut
    ensures Accounts(Running, acts, polls, setup, result)
  {
    assert (waited + [Asked(cancelled)])[2 * polls] == acts[2 * polls];
    assert polls > 0 ==> waited[2 * polls - 1] == acts[2 * polls - 1];
    assert acts[..2 * polls] == waited;
    CancelledWhenAsked(acts, polls, setup, result);
  }

  lemma ExitAccounts(waited: seq<Act>, polls: nat, wait: Act, acts: seq<Act>, setup: Setup, result: CommandResult)
    requires StillPolls(waited, polls, setup) && acts == waited + [Asked(false), wait]
    requires Polled(wait, polls == 0, setup)
    requires match wait.outcome
             case Exited(code, _, _) =>
               result.ending == Finished && result.returncode == if code.Some? then code.value else -1
             case Raised => result.ending == Failed
             case Expired => false
    ensures Accounts(Running, acts, polls + 1, setup, Some(result))
  {
    AllPollSnoc(waited, polls, wait, setup);
    assert acts[..2 * (polls + 1)] == acts;
    CancelledWhenAsked(acts, polls + 1, setup, Some(result));
  }

  /**
   run_cancellable_command: at most timeout / poll_interval waits, rounded up, each at most the poll
   interval and right after finding the run not cancelled; the input goes with the first. A run found
   cancelled is terminated at once and reported so; only one whose time is over is reported timed out.
   */
  method RunCancellable(p: Process, timeout: real, pollInterval: real, stdin: Option<string>)
    returns (result: Option<CommandResult>, ghost polls: nat, ghost deadline: real)
    requires pollInterval > 0.0 && p.spawned == None && p.acts == []
    modifies p
    ensures p.spawned.Some? && polls <= MostRounds(timeout, pollInterval)
    ensures Accounts(p.spawned.value, p.acts, polls, Setup(stdin, pollInterval, deadline), result)
    ensures result.Some? && result.value.ending != Finished ==> result.value.returncode == -1
    ensures result.Some? ==> Reports(result.value, p.acts)
    ensures result.Some? && result.value.ending == TimedOut ==> p.now >= deadline >= old(p.now) + timeout
  {
    var start := p.Clock();
    var end := start + timeout;
    deadline := end;
    ghost var setup := Setup(stdin, pollInterval, deadline);
    var pendingInput := stdin;
    polls := 0;
    var spawned := p.Spawn();
    if spawned.NotFound? {
      result := Some(CommandResult(-1, CommandNotFound, "", ""));
      return;
    }
    if spawned.NotStarted? {
      result := Some(CommandResult(-1, Failed, "", ""));
      return;
    }
    while true
      invariant p.now >= start && p.spawned == Some(Running)
      invariant |p.acts| == 2 * polls && polls <= MostRounds(timeout, pollInterval)
      invariant Rounds(polls, pollInterval) <= p.now - start || p.now >= deadline
      invariant pendingInput == if polls == 0 then stdin else None
      invariant StillPolls(p.acts, polls, setup)
      decreases MostRounds(timeout, pollInterval) - polls
    {
      ghost var waited := p.acts;
      var cancelled := p.CancelRequested();
      if cancelled {
        result := FinishTerminated(p, Cancelled);
        TerminationAccounts(waited, polls, true, p.acts, setup, result);
        return;
      }
      var t := p.Clock();
      var remaining := end - t;
      if remaining <= 0.0 {
        result := FinishTerminated(p, TimedOut);
        TerminationAccounts(waited, polls, false, p.acts, setup, result);
        return;
      }
      RoundStarts(polls, timeout, pollInterval);
      var wait := Min(pollInterval, Max(remaining, 0.01));
      var outcome := p.Communicate(pendingInput, wait);
      assert p.acts == waited + [Asked(false), Last(p.acts)];
      polls := polls + 1;
      match outcome
      case Exited(code, _, _) =>
        var returncode := if code.Some? then code.value else -1;
        AnswerReports(returncode, Finished, p.acts);
        result := Some(Answer(returncode, Finished, outcome));
        ExitAccounts(waited, polls - 1, Last(p.acts), p.acts, setup, result.value);
        return;
      case Raised =>
        AnswerReports(-1, Failed, p.acts);
        result := Some(Answer(-1, Failed, outcome));
        ExitAccounts(waited, polls - 1, Last(p.acts), p.acts, setup, result.value);
        return;
      case Expired =>
        AllPollSnoc(waited, polls - 1, Last(p.acts), setup);
        pendingInput := None;
    }
  }

  // ---------------------------------------------------------------------------------------------
  // A condition

  /** What is polled: each value the condition had when evaluated, and the clock. */
  class Condition {
    var now: real
    var values: seq<bool>

    constructor ()
      ensures values == []
    {
      now, values := 0.0, [];
    }

    method Evaluate() returns (value: bool)
      modifies this
      ensures values == old(values) + [value] && now >= old(now)
    {
      value := *;
      var took: real := *;
      if took > 0.0 {
        now := now + took;
      }
      values := values + [value];
    }

    method Sleep(interval: real)
      modifies this`now
      ensures now >= old(now) && now >= old(now) + interval
    {
      var late: real := *;
      now := now + Max(interval, 0.0) + Max(late, 0.0);
    }
  }

  /** poll_until: the last value, the first that is true or one seen when the time was over. */
  method PollUntil(c: Condition, timeout: real, interval: real) returns (result: bool)
    requires interval > 0.0 && c.values == []
    modifies c
    ensures 1 <= |c.values| <= MostRounds(timeout, interval) + 1
    ensures result == Last(c.values)
    ensures forall i :: 0 <= i < |c.values| - 1 ==> !c.values[i]
    ensures !result ==> c.now >= old(c.now) + timeout
  {
    var start := c.now;
    var deadline := start + timeout;
    result := c.Evaluate();
    while !result && c.now < deadline
      invariant c.now >= start
      invariant 1 <= |c.values| <= MostRounds(timeout, interval) + 1
      invariant Rounds(|c.values| - 1, interval) <= c.now - start
      invariant result == Last(c.values)
      invariant forall i :: 0 <= i < |c.values| - 1 ==> !c.values[i]
      decreases MostRounds(timeout, interval) + 1 - |c.values|
    {
      RoundStarts(|c.values| - 1, timeout, interval);
      c.Sleep(interval);
      result := c.Evaluate();
    }
  }
}
