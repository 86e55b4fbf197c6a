/**
 The lifecycle of a vLLM deployment's containers: start, stop and the context manager, on a host
 where every docker command may fail in every way, with a log of what happened for statements about
 each moment of a run.
 */
module VllmLifecycle {
  import opened Common
  import opened Text
  import opened VllmWorkers

  const REMOVE_TIMEOUT: real := 120.0
  const REMOVE_RETRY_INTERVAL: real := 2.0

  // ---------------------------------------------------------------------------------------------
  // Names

  /** unique_container_name: base, pid and the process's next sequence number. */
  function ContainerName(base: string, pid: nat, n: nat): string {
    base + "-" + Decimal(pid) + ("-" + Decimal(n))
  }

  /** The name carries a sequence number below the limit. */
  ghost predicate Numbered(container: string, pid: nat, limit: nat) {
    exists base: string, n: nat :: n < limit && container == ContainerName(base, pid, n)
  }

  /** What follows the last dash. */
  function AfterLastDash(s: string): string {
    if s == "" || Last(s) == '-' then "" else AfterLastDash(s[..|s| - 1]) + [Last(s)]
  }

  lemma {:induction false} DigitsAfterDash(front: string, digits: string)
    requires forall i :: 0 <= i < |digits| ==> IsDigit(digits[i])
    ensures AfterLastDash(front + ("-" + digits)) == digits
  {
    var s := front + ("-" + digits);
    if digits == "" {
      assert Last(s) == '-';
    } else {
      var shorter := digits[..|digits| - 1];
      assert s[..|s| - 1] == front + ("-" + shorter);
      DigitsAfterDash(front, shorter);
      assert digits == shorter + [Last(digits)];
    }
  }

  /** Whatever their bases, two names with different sequence numbers differ. */
  lemma NamesDiffer(a: string, b: string, pid: nat, m: nat, n: nat)
    requires ContainerName(a, pid, m) == ContainerName(b, pid, n)
    ensures m == n
  {
    DigitsAfterDash(a + "-" + Decimal(pid), Decimal(m));
    DigitsAfterDash(b + "-" + Decimal(pid), Decimal(n));
    ParseDecimal(m);
    ParseDecimal(n);
  }

  // ---------------------------------------------------------------------------------------------
  // The log

  /**
   Listing a name, docker run (creating a container or not, and succeeding or not), seeing one serve or
   waiting in vain, copying the proxy's script, docker rm, clearing the list.
   */
  datatype Event =
    | Listed(name: string)
    | Launched(name: string, proxy: bool, created: bool, ok: bool)
    | Served(name: string)
    | NotServed(name: string)
    | Copied(ok: bool)
    | Removed(name: string, gone: bool)
    | Cleared

  /** What makes start() raise once it has begun. */
  predicate Fails(e: Event) {
    (e.Launched? && !e.ok) || e.NotServed? || e == Copied(false)
  }

  ghost predicate NothingFails(events: seq<Event>) {
    forall e :: e in events ==> !Fails(e)
  }

  lemma NothingFailsInBoth(a: seq<Event>, b: seq<Event>)
    ensures NothingFails(a + b) <==> NothingFails(a) && NothingFails(b)
  {
    assert forall e :: e in a || e in b ==> e in a + b;
  }

  ghost function Live(log: seq<Event>): set<string> {
    if log == [] then {}
    else
      var before := Live(log[..|log| - 1]);
      match Last(log)
      case Launched(name, _, created, _) => if created then before + {name} else before
      case Removed(name, gone) => if gone then before - {name} else before
      case _ => before
  }

  ghost function Containers(log: seq<Event>): seq<string> {
    if log == [] then []
    else
      var before := Containers(log[..|log| - 1]);
      match Last(log)
      case Listed(name) => before + [name]
      case Cleared => []
      case _ => before
  }

  /** Containers that were still live when a stop() cleared the list. */
  ghost function Leaked(log: seq<Event>): set<string> {
    if log == [] then {}
    else
      var before := Leaked(log[..|log| - 1]);
      match Last(log)
      case Cleared => Live(log[..|log| - 1])
      case _ => before
  }

  ghost predicate Accounted(log: seq<Event>) {
    && Distinct(Containers(log))
    && (forall name :: name in Live(log) ==> name in Containers(log) || name in Leaked(log))
  }

  /** At every moment so far each live container was listed, under a name of its own, or had been leaked. */
  ghost predicate AlwaysAccounted(log: seq<Event>) {
    forall k :: 0 <= k <= |log| ==> Accounted(log[..k])
  }

  predicate LaunchesProxy(e: Event) { e.Launched? && e.proxy }

  ghost predicate NoProxy(events: seq<Event>) {
    forall e :: e in events ==> !LaunchesProxy(e)
  }

  /** Each name had its container created by a docker run that succeeded. */
  ghost predicate AllLaunched(names: seq<string>, events: seq<Event>) {
    forall c :: c in names ==> Launched(c, false, true, true) in events
  }

  ghost predicate AllServed(names: seq<string>, events: seq<Event>) {
    forall c :: c in names ==> Served(c) in events
  }

  /** This proxy was launched and then seen serving. */
  ghost predicate ProxyServes(proxy: string, events: seq<Event>) {
    Launched(proxy, true, true, true) in events && Served(proxy) in events
  }

  /** A proxy is launched only after each of these containers was seen serving. */
  ghost predicate ProxyAfterWorkers(events: seq<Event>, workers: seq<string>) {
    forall k, c :: 0 <= k < |events| && LaunchesProxy(events[k]) && c in workers ==> Served(c) in events[..k]
  }

  /** What a start() that succeeds has done for its workers, and for a proxy in front of them if there is one. */
  ghost predicate Brings(events: seq<Event>, workers: seq<string>, proxy: Option<string>) {
    && AllLaunched(workers, events) && AllServed(workers, events)
    && if proxy.Some? then ProxyServes(proxy.value, events) else NoProxy(events)
  }

  /** Whatever follows the wait for the workers comes after each was seen serving. */
  lemma ServedBeforeProxy(first: seq<Event>, rest: seq<Event>, workers: seq<string>)
    requires NoProxy(first) && (AllServed(workers, first) || NoProxy(rest))
    ensures ProxyAfterWorkers(first + rest, workers)
  {
    var all := first + rest;
    forall k, c | 0 <= k < |all| && c in workers ensures LaunchesProxy(all[k]) ==> Served(c) in all[..k] {
      assert k < |first| ==> all[k] in first;
      assert k >= |first| ==> all[k] in rest && all[..k] == first + rest[..k - |first|];
    }
  }

  /** The first n names were each listed and launched; the next was listed and could not be. */
  function LaunchedAll(names: seq<string>): seq<Event> {
    if names == [] then []
    else LaunchedAll(names[..|names| - 1]) + [Listed(Last(names)), Launched(Last(names), false, true, true)]
  }

  lemma {:induction false} LaunchedAllSpec(names: seq<string>)
    ensures AllLaunched(names, LaunchedAll(names)) && NoProxy(LaunchedAll(names)) && NothingFails(LaunchedAll(names))
  {
    if names == [] {
    } else {
      var front := names[..|names| - 1];
      LaunchedAllSpec(front);
      assert names == front + [Last(names)];
      assert LaunchedAll(names)[|LaunchedAll(front)| + 1] == Launched(Last(names), false, true, true);
    }
  }

  /** A docker run for a worker, and what it makes of the launches before it. */
  lemma LaunchEnds(names: seq<string>, name: string, created: bool, ok: bool)
    requires ok ==> created
    ensures var events := LaunchedAll(names) + [Listed(name), Launched(name, false, created, ok)];
            && (ok ==> events == LaunchedAll(names + [name]))
            && NoProxy(events) && (NothingFails(events) <==> ok)
  {
    var launch := [Listed(name), Launched(name, false, created, ok)];
    LaunchedAllSpec(names);
    NothingFailsInBoth(LaunchedAll(names), launch);
    assert launch[1] in launch;
    assert (names + [name])[..|names|] == names;
  }

  function ServedAll(names: seq<string>): seq<Event> {
    seq(|names|, i requires 0 <= i < |names| => Served(names[i]))
  }

  /** A wait for one more container, and what it makes of the waits before it. */
  lemma WaitEnds(names: seq<string>, k: nat, ok: bool)
    requires k < |names|
    ensures var events := ServedAll(names[..k]) + [if ok then Served(names[k]) else NotServed(names[k])];
            && (ok ==> events == ServedAll(names[..k + 1]))
            && NoProxy(events) && (NothingFails(events) <==> ok)
  {
    var events := ServedAll(names[..k]) + [if ok then Served(names[k]) else NotServed(names[k])];
    assert Last(events) in events;
  }

  lemma ServedAllSpec(names: seq<string>)
    ensures AllServed(names, ServedAll(names)) && NoProxy(ServedAll(names)) && NothingFails(ServedAll(names))
  {
    forall c | c in names ensures Served(c) in ServedAll(names) {
      var i :| 0 <= i < |names| && names[i] == c;
      assert ServedAll(names)[i] == Served(c);
    }
  }

  /** Workers launched and then waited for. */
  lemma WorkersUp(launched: seq<Event>, waited: seq<Event>, names: seq<string>)
    requires launched == LaunchedAll(names) && waited == ServedAll(names)
    ensures Brings(launched + waited, names, None) && NothingFails(launched + waited)
  {
    LaunchedAllSpec(names);
    ServedAllSpec(names);
  }

  lemma WithoutProxy(events: seq<Event>, workers: seq<string>)
    requires NoProxy(events)
    ensures ProxyAfterWorkers(events, workers)
  {
    ServedBeforeProxy(events, [], workers);
    assert events + [] == events;
  }

  /** The proxy launched behind workers that serve. */
  lemma ProxyUp(workersUp: seq<Event>, rest: seq<Event>, workers: seq<string>, proxy: string, ok: bool)
    requires Brings(workersUp, workers, None) && NothingFails(workersUp)
    requires (ok <==> NothingFails(rest)) && (ok ==> ProxyServes(proxy, rest))
    ensures ok <==> NothingFails(workersUp + rest)
    ensures ok ==> Brings(workersUp + rest, workers, Some(proxy))
    ensures ProxyAfterWorkers(workersUp + rest, workers)
  {
    NothingFailsInBoth(workersUp, rest);
    ServedBeforeProxy(workersUp, rest, workers);
  }

  lemma AccountedNow(log: seq<Event>)
    requires AlwaysAccounted(log)
    ensures Accounted(log)
  {
    assert log[..|log|] == log;
  }

  lemma AccountedOneMore(log: seq<Event>, e: Event)
    requires AlwaysAccounted(log) && Accounted(log + [e])
    ensures AlwaysAccounted(log + [e])
  {
    forall k | 0 <= k <= |log + [e]| ensures Accounted((log + [e])[..k]) {
      if k <= |log| {
        assert (log + [e])[..k] == log[..k];
      } else {
        assert (log + [e])[..k] == log + [e];
      }
    }
  }

  /** Events the deployment may add at this moment: it lists only new names and launches only listed ones. */
  ghost predicate Proper(log: seq<Event>, e: Event) {
    && (e.Listed? ==> e.name !in Containers(log))
    && (e.Launched? ==> e.name in Containers(log))
  }

  /** A proper event keeps every live container accounted for; this is what it does to the three views. */
  lemma ProperKeepsAccount(log: seq<Event>, e: Event)
    requires AlwaysAccounted(log) && Proper(log, e)
    ensures AlwaysAccounted(log + [e])
    ensures Live(log + [e]) ==
              if e.Launched? && e.created then Live(log) + {e.name}
              else if e.Removed? && e.gone then Live(log) - {e.name}
              else Live(log)
    ensures Containers(log + [e]) ==
              if e.Listed? then Containers(log) + [e.name] else if e.Cleared? then [] else Containers(log)
    ensures Leaked(log + [e]) == if e.Cleared? then Live(log) else Leaked(log)
  {
    assert (log + [e])[..|log|] == log && log[..|log|] == log;
    assert Accounted(log);
    assert Accounted(log + [e]) by {
      assert forall name :: name in Containers(log) && !e.Cleared? ==> name in Containers(log + [e]);
    }
    AccountedOneMore(log, e);
  }

  lemma {:induction false} NothingLeakedYet(log: seq<Event>)
    requires forall i :: 0 <= i < |log| ==> !log[i].Cleared?
    ensures Leaked(log) == {}
  {
    if log == [] {
    } else {
      NothingLeakedYet(log[..|log| - 1]);
    }
  }

  /** Until a stop() clears the list, at every moment each live container is in it, under a name of its own. */
  lemma LiveContainersAreListed(log: seq<Event>, k: nat)
    requires AlwaysAccounted(log) && k <= |log| && forall i :: 0 <= i < k ==> !log[i].Cleared?
    ensures forall name :: name in Live(log[..k]) ==> name in Containers(log[..k])
    ensures Distinct(Containers(log[..k]))
  {
    NothingLeakedYet(log[..k]);
    assert Accounted(log[..k]);
  }

  // ---------------------------------------------------------------------------------------------
  // Docker on the host

  datatype RmAnswer = Gone | StillDying | Refused | CommandFailed

  /** A docker rm: when it began, and what it answered. */
  datatype Try = Try(at: real, answer: RmAnswer)

  class DockerHost {
    ghost var log: seq<Event>
    var rm: seq<Try>
    var sequence: nat  // the process's container counter
    const pid: nat
    var now: real

    constructor (pid: nat)
      ensures this.pid == pid && log == [] && rm == []
    {
      this.pid, log, rm, sequence, now := pid, [], [], 0, 0.0;
    }

    method UniqueContainerName(base: string) returns (name: string)
      modifies this`sequence
      ensures name == ContainerName(base, pid, old(sequence)) && sequence == old(sequence) + 1
    {
      name := ContainerName(base, pid, sequence);
      sequence := sequence + 1;
    }

    /** docker run: it may create the container and still fail, or the command itself may raise. */
    method Run(name: string, proxy: bool) returns (ok: bool)
      modifies this`log
      ensures exists created: bool :: (ok ==> created) && log == old(log) + [Launched(name, proxy, created, ok)]
    {
      var created: bool, reported: bool := *, *;
      ok := created && reported;
      log := log + [Launched(name, proxy, created, ok)];
    }

    /** The proxy's script written to the host. */
    method CopyScript() returns (ok: bool)
      modifies this`log
      ensures log == old(log) + [Copied(ok)]
    {
      ok := *;
      log := log + [Copied(ok)];
    }

    /** One docker rm --force; only the answers that end the retries successfully say it is gone. */
    method Rm(name: string) returns (answer: RmAnswer, ghost gone: bool)
      modifies this`now, this`rm
      ensures now >= old(now) && (answer.Gone? ==> gone) && rm == old(rm) + [Try(old(now), answer)]
    {
      var removed: bool, reported: bool, dying: bool, ran: bool, took: real := *, *, *, *, *;
      var began := now;
      gone := removed;
      now := now + if took > 0.0 then took else 0.0;
      answer := if removed && reported then Gone
                else if !ran then CommandFailed
                else if dying then StillDying
                else Refused;
      rm := rm + [Try(began, answer)];
    }

    /**
     force_remove_container: retry while the container is still dying and there is time for another
     try; true exactly when docker says it is gone.
     */
    method ForceRemove(name: string) returns (removed: bool, ghost tries: seq<Try>)
      modifies this`log, this`now, this`rm
      ensures exists gone: bool :: (removed ==> gone) && log == old(log) + [Removed(name, gone)]
      ensures rm == old(rm) + tries && tries != []
      ensures forall i :: 0 <= i < |tries| - 1 ==> tries[i].answer.StillDying?
      ensures forall i :: 0 < i < |tries| ==> tries[i].at < old(now) + 120.0
      ensures removed <==> Last(tries).answer.Gone?
      ensures Last(tries).answer.StillDying? ==> now >= old(now) + 118.0
    {
      var deadline := now + REMOVE_TIMEOUT;
      ghost var gone := false;
      tries := [];
      while true
        invariant log == old(log) && rm == old(rm) + tries && now >= old(now)
        invariant forall i :: 0 <= i < |tries| ==> tries[i].answer.StillDying?
        invariant forall i :: 0 < i < |tries| ==> tries[i].at < deadline
        invariant tries != [] ==> now < deadline
        decreases deadline - now
      {
        ghost var before := now;
        var answer;
        answer, gone := Rm(name);
        tries := tries + [Try(before, answer)];
        if answer.Gone? {
          removed := true;
          break;
        }
        if !answer.StillDying? || now + REMOVE_RETRY_INTERVAL >= deadline {
          removed := false;
          break;
        }
        now := now + REMOVE_RETRY_INTERVAL;
        assert deadline - now <= deadline - before - REMOVE_RETRY_INTERVAL;
      }
      log := log + [Removed(name, gone)];
    }

    /** Poll until the server answers, its container exits, or time is up; true means it was seen serving. */
    method WaitUntilServing(name: string) returns (ok: bool)
      modifies this`log
      ensures log == old(log) + [if ok then Served(name) else NotServed(name)]
    {
      ok := *;
      log := log + [if ok then Served(name) else NotServed(name)];
    }
  }

  lemma NamedOneMore(containers: seq<string>, name: string, workers: seq<VllmWorker>, k: nat, pid: nat, first: nat,
                     container: string)
    requires k < |workers| && NamedAfter(containers, name, workers[..k], pid, first)
    requires container == ContainerName(name + Suffix(workers[k].role), pid, first + k)
    ensures NamedAfter(containers + [container], name, workers[..k + 1], pid, first)
  {
  }

  /** One attempt for each of these containers, in their order. */
  ghost predicate Removals(events: seq<Event>, containers: seq<string>) {
    |events| == |containers| && forall k :: 0 <= k < |events| ==> events[k].Removed? && events[k].name == containers[k]
  }

  /** What these took away is not live. */
  ghost predicate AbsentFrom(removals: seq<Event>, live: set<string>) {
    forall e :: e in removals && e.Removed? && e.gone ==> e.name !in live
  }

  lemma OneRemoved(removals: seq<Event>, containers: seq<string>, k: nat, gone: bool, live: set<string>)
    requires k < |containers| && Removals(removals, containers[..k]) && AbsentFrom(removals, live)
    ensures var more, name := removals + [Removed(containers[k], gone)], containers[k];
            && Removals(more, containers[..k + 1])
            && AbsentFrom(more, if gone then live - {name} else live)
  {
  }

  lemma AllRemoved(removals: seq<Event>, containers: seq<string>, live: set<string>, leaked: set<string>)
    requires Removals(removals, containers) && AbsentFrom(removals, live)
    requires forall name :: name in live ==> name in containers || name in leaked
    ensures (forall e :: e in removals ==> e.gone) && leaked == {} ==> live == {}
  {
    forall name | name in live && name !in leaked ensures exists e :: e in removals && !e.gone {
      var k :| 0 <= k < |containers| && containers[k] == name;
      assert removals[k] in removals;
    }
  }

  // ---------------------------------------------------------------------------------------------
  // The deployment

  /** A worker's container is named after the deployment, and its role where it has one. */
  function Suffix(role: Role): string {
    if role.Server? then "" else if role.Prefill? then "-prefill" else "-decode"
  }

  /** These containers are named after these workers, numbered from the first on. */
  ghost predicate NamedAfter(containers: seq<string>, name: string, workers: seq<VllmWorker>, pid: nat, first: nat) {
    && |containers| == |workers|
    && forall k: nat :: k < |workers| ==>
         containers[k] == ContainerName(name + Suffix(workers[k].role), pid, first + k)
  }

  class VllmDeployment {
    const host: DockerHost
    const name: string
    const workers: seq<VllmWorker>
    const port: Option<int>           // the port of the url
    const connectorKnown: bool        // kv_transfer names a known connector
    var containers: seq<string>
    var workerContainers: seq<string>

    constructor (host: DockerHost, name: string, workers: seq<VllmWorker>, port: Option<int>, connectorKnown: bool)
      requires host.log == []
      ensures Valid() && this.host == host && this.workers == workers && Leaked(host.log) == {}
      ensures containers == [] && workerContainers == []
    {
      this.host, this.name, this.workers, this.port, this.connectorKnown := host, name, workers, port, connectorKnown;
      containers, workerContainers := [], [];
    }

    predicate Disaggregated()
      ensures Disaggregated() <==> exists w :: w in workers && w.role != Server
    {
      exists k :: 0 <= k < |workers| && workers[k].role != Server
    }

    /** The list is what the log says, and every listed name carries a number already handed out. */
    ghost predicate Valid()
      reads this, host
    {
      && containers == Containers(host.log)
      && AlwaysAccounted(host.log)
      && (forall c :: c in containers ==> Numbered(c, host.pid, host.sequence))
    }

    /** _run_container: the name is listed before docker is asked for the container. */
    method RunContainer(container: string, proxy: bool) returns (ok: bool, ghost created: bool)
      requires Valid() && Numbered(container, host.pid, host.sequence) && container !in containers
      modifies this`containers, host`log
      ensures Valid() && containers == old(containers) + [container]
      ensures ok ==> created
      ensures host.log == old(host.log) + [Listed(container), Launched(container, proxy, created, ok)]
      ensures Leaked(host.log) == old(Leaked(host.log))
    {
      ProperKeepsAccount(host.log, Listed(container));
      host.log := host.log + [Listed(container)];
      containers := containers + [container];
      ghost var listed := host.log;
      ok := host.Run(container, proxy);
      created :| (ok ==> created) && host.log == listed + [Launched(container, proxy, created, ok)];
      ProperKeepsAccount(listed, Launched(container, proxy, created, ok));
    }

    /** stop(): try to remove every container, in the order they were started, then forget them all. */
    method Stop() returns (ghost removals: seq<Event>)
      requires Valid()
      modifies this, host`log, host`now, host`rm
      ensures Valid() && containers == [] && workerContainers == []
      ensures host.log == old(host.log) + removals + [Cleared] && Removals(removals, old(containers))
      ensures Live(host.log) <= old(Live(host.log)) && Leaked(host.log) == Live(host.log)
      ensures AbsentFrom(removals, Live(host.log))
      ensures (forall e :: e in removals ==> e.gone) && old(Leaked(host.log)) == {} ==> Live(host.log) == {}
    {
      removals := [];
      for k := 0 to |containers|
        invariant Valid() && containers == old(containers) && workerContainers == old(workerContainers)
        invariant host.sequence == old(host.sequence)
        invariant host.log == old(host.log) + removals && Removals(removals, containers[..k])
        invariant Live(host.log) <= old(Live(host.log)) && Leaked(host.log) == old(Leaked(host.log))
        invariant AbsentFrom(removals, Live(host.log))
      {
        ghost var before := host.log;
        var removed;
        ghost var tries;
        removed, tries := host.ForceRemove(containers[k]);
        ghost var gone :| (removed ==> gone) && host.log == before + [Removed(containers[k], gone)];
        ProperKeepsAccount(before, Removed(containers[k], gone));
        ConcatAssociative(old(host.log), removals, [Removed(containers[k], gone)]);
        OneRemoved(removals, containers, k, gone, Live(before));
        removals := removals + [Removed(containers[k], gone)];
      }
      ghost var before := host.log;
      assert containers[..|containers|] == containers;
      AccountedNow(before);
      AllRemoved(removals, containers, Live(before), Leaked(before));
      host.log := host.log + [Cleared];
      ProperKeepsAccount(before, Cleared);
      containers := [];
      workerContainers := [];
    }

    /** One round of the worker loop of start(): list a container for the worker and launch it. */
    method LaunchWorker(worker: VllmWorker) returns (ok: bool, ghost container: string, ghost created: bool)
      requires Valid()
      modifies this`containers, this`workerContainers, host`log, host`sequence
      ensures Valid() && Leaked(host.log) == old(Leaked(host.log))
      ensures container == ContainerName(name + Suffix(worker.role), host.pid, old(host.sequence))
      ensures host.sequence == old(host.sequence) + 1 && workerContainers == old(workerContainers) + [container]
      ensures ok ==> created
      ensures host.log == old(host.log) + [Listed(container), Launched(container, false, created, ok)]
    {
      var base := match worker.role
        case Server => name
        case Prefill => name + "-prefill"
        case Decode => name + "-decode";
      assert name + "" == name;
      ghost var n := host.sequence;
      var unique := host.UniqueContainerName(base);
      container := unique;
      NameIsNew(containers, base, host.pid, n);
      assert Numbered(container, host.pid, n + 1);
      workerContainers := workerContainers + [unique];
      ok, created := RunContainer(unique, false);
    }

    /** The worker loop, until docker fails. */
    method LaunchWorkers() returns (ok: bool, ghost events: seq<Event>, ghost names: seq<string>)
      requires Valid()
      modifies this`containers, this`workerContainers, host`log, host`sequence
      ensures Valid() && Leaked(host.log) == old(Leaked(host.log))
      ensures host.log == old(host.log) + events && (ok <==> NothingFails(events)) && NoProxy(events)
      ensures ok ==> events == LaunchedAll(names) && workerContainers == old(workerContainers) + names
      ensures ok ==> host.sequence == old(host.sequence) + |workers|
      ensures ok ==> NamedAfter(names, name, workers, host.pid, old(host.sequence))
    {
      events, names := [], [];
      for k := 0 to |workers|
        invariant Valid() && Leaked(host.log) == old(Leaked(host.log))
        invariant host.log == old(host.log) + events && events == LaunchedAll(names)
        invariant NothingFails(events) && NoProxy(events)
        invariant host.sequence == old(host.sequence) + k && workerContainers == old(workerContainers) + names
        invariant NamedAfter(names, name, workers[..k], host.pid, old(host.sequence))
      {
        ghost var container, created;
        ok, container, created := LaunchWorker(workers[k]);
        ghost var launch := [Listed(container), Launched(container, false, created, ok)];
        ConcatAssociative(old(host.log), events, launch);
        LaunchEnds(names, container, created, ok);
        events := events + launch;
        NamedOneMore(names, name, workers, k, host.pid, old(host.sequence), container);
        ConcatAssociative(old(workerContainers), names, [container]);
        names := names + [container];
        if !ok {
          return;
        }
      }
      assert workers[..|workers|] == workers;
      ok := true;
    }

    /** Wait for each worker in turn; a list of the wrong length is an error once the pairs run out. */
    method AwaitWorkers() returns (ok: bool, ghost events: seq<Event>)
      requires Valid()
      modifies host`log
      ensures Valid() && Leaked(host.log) == old(Leaked(host.log))
      ensures host.log == old(host.log) + events && NoProxy(events)
      ensures ok <==> |workerContainers| == |workers| && NothingFails(events)
      ensures ok ==> events == ServedAll(workerContainers)
    {
      events := [];
      var pairs := if |workerContainers| < |workers| then |workerContainers| else |workers|;
      for k := 0 to pairs
        invariant Valid() && Leaked(host.log) == old(Leaked(host.log))
        invariant host.log == old(host.log) + events && events == ServedAll(workerContainers[..k])
      {
        ghost var before := host.log;
        ok := host.WaitUntilServing(workerContainers[k]);
        ghost var e := if ok then Served(workerContainers[k]) else NotServed(workerContainers[k]);
        ProperKeepsAccount(before, e);
        ConcatAssociative(old(host.log), events, [e]);
        WaitEnds(workerContainers, k, ok);
        events := events + [e];
        if !ok {
          return;
        }
      }
      ServedAllSpec(workerContainers[..pairs]);
      assert pairs == |workerContainers| ==> workerContainers[..pairs] == workerContainers;
      ok := |workerContainers| == |workers|;
    }

    /** The proxy, behind which the workers already serve. */
    method LaunchProxy() returns (ok: bool, ghost events: seq<Event>)
      requires Valid()
      modifies this`containers, host`log, host`sequence
      ensures Valid() && Leaked(host.log) == old(Leaked(host.log))
      ensures host.log == old(host.log) + events && (ok <==> NothingFails(events))
      ensures ok ==> ProxyServes(ContainerName(name + "-proxy", host.pid, old(host.sequence)), events)
    {
      var base := name + "-proxy";
      ghost var n := host.sequence;
      var proxy := host.UniqueContainerName(base);
      ghost var before := host.log;
      ok := host.CopyScript();
      ProperKeepsAccount(before, Copied(ok));
      if !ok {
        events := [Copied(false)];
        assert events[0] in events;
        return;
      }
      NameIsNew(containers, base, host.pid, n);
      assert Numbered(proxy, host.pid, n + 1);
      ghost var created;
      ok, created := RunContainer(proxy, true);
      events := [Copied(true), Listed(proxy), Launched(proxy, true, created, ok)];
      assert host.log == old(host.log) + events;
      if !ok {
        assert events[2] in events;
        return;
      }
      before := host.log;
      ok := host.WaitUntilServing(proxy);
      ghost var e := if ok then Served(proxy) else NotServed(proxy);
      ProperKeepsAccount(before, e);
      ConcatAssociative(old(host.log), events, [e]);
      ProxyEnds(proxy, ok);
      events := events + [e];
    }

    /** The proxy's name, when it follows the workers in the numbering. */
    ghost function ProxyName(first: nat): Option<string> {
      if Disaggregated() then Some(ContainerName(name + "-proxy", host.pid, first + |workers|)) else None
    }

    /** start() asks docker for nothing without a port to serve on, or without a connector where it needs one. */
    predicate Startable() {
      port.Some? && (Disaggregated() ==> connectorKnown)
    }

    /** Both loops of start(). */
    method StartWorkers() returns (ok: bool, ghost events: seq<Event>)
      requires Valid()
      modifies this`containers, this`workerContainers, host`log, host`sequence
      ensures Valid() && Leaked(host.log) == old(Leaked(host.log))
      ensures host.log == old(host.log) + events && NoProxy(events)
      ensures ok <==> old(workerContainers) == [] && NothingFails(events)
      ensures ok ==> NamedAfter(workerContainers, name, workers, host.pid, old(host.sequence))
      ensures ok ==> Brings(events, workerContainers, None) && host.sequence == old(host.sequence) + |workers|
    {
      ghost var names;
      ok, events, names := LaunchWorkers();
      if !ok {
        return;
      }
      ghost var waited;
      ok, waited := AwaitWorkers();
      ConcatAssociative(old(host.log), events, waited);
      NothingFailsInBoth(events, waited);
      if ok {
        assert workerContainers == names;
        WorkersUp(events, waited, names);
      }
      events := events + waited;
    }

    /**
     start(): false when it raises, which is exactly when it may not start, some worker is listed
     already, or something it asks for fails. The proxy is launched only once every worker container
     has been seen serving, and only in front of a disaggregated deployment.
     */
    method Start() returns (ok: bool, ghost events: seq<Event>)
      requires Valid()
      modifies this`containers, this`workerContainers, host`log, host`sequence
      ensures Valid() && Leaked(host.log) == old(Leaked(host.log))
      ensures host.log == old(host.log) + events
      ensures ok <==> Startable() && old(workerContainers) == [] && NothingFails(events)
      ensures !Startable() ==> events == [] && containers == old(containers)
      ensures ProxyAfterWorkers(events, workerContainers)
      ensures ok ==> NamedAfter(workerContainers, name, workers, host.pid, old(host.sequence))
      ensures ok ==> Brings(events, workerContainers, ProxyName(old(host.sequence)))
    {
      events := [];
      if port.None? || (Disaggregated() && !connectorKnown) {
        return false, events;
      }
      ok, events := StartWorkers();
      WithoutProxy(events, workerContainers);
      if !ok || !Disaggregated() {
        return;
      }
      ghost var proxy, rest := ContainerName(name + "-proxy", host.pid, host.sequence), [];
      ok, rest := LaunchProxy();
      ConcatAssociative(old(host.log), events, rest);
      ProxyUp(events, rest, workerContainers, proxy, ok);
      events := events + rest;
    }

    /** __enter__: start, and remove what was started when the start fails. */
    method Enter() returns (ok: bool, ghost events: seq<Event>, ghost removals: seq<Event>)
      requires Valid()
      modifies this, host
      ensures Valid()
      ensures ok <==> Startable() && old(workerContainers) == [] && NothingFails(events)
      ensures ok ==> Leaked(host.log) == old(Leaked(host.log)) && host.log == old(host.log) + events
      ensures ok ==> ProxyAfterWorkers(events, workerContainers)
      ensures ok ==> NamedAfter(workerContainers, name, workers, host.pid, old(host.sequence))
      ensures ok ==> Brings(events, workerContainers, ProxyName(old(host.sequence)))
      ensures !ok ==> containers == [] && workerContainers == [] && Leaked(host.log) == Live(host.log)
      ensures !ok ==> host.log == old(host.log) + events + removals + [Cleared]
                      && Removals(removals, Containers(old(host.log) + events))
      ensures !ok && (forall e :: e in removals ==> e.gone) && old(Leaked(host.log)) == {} ==> Live(host.log) == {}
    {
      removals := [];
      ok, events := Start();
      if !ok {
        removals := Stop();
      }
    }
  }

  /** The wait for the proxy after its docker run, and what it makes of both. */
  lemma ProxyEnds(proxy: string, ok: bool)
    ensures var events := [Copied(true), Listed(proxy), Launched(proxy, true, true, true)]
                          + [if ok then Served(proxy) else NotServed(proxy)];
            (NothingFails(events) <==> ok) && (ok ==> ProxyServes(proxy, events))
  {
    var events := [Copied(true), Listed(proxy), Launched(proxy, true, true, true)]
                  + [if ok then Served(proxy) else NotServed(proxy)];
    assert events[3] in events && events[2] in events;
  }

  /** A number not handed out before makes a name not listed before. */
  lemma NameIsNew(containers: seq<string>, base: string, pid: nat, n: nat)
    requires forall c :: c in containers ==> Numbered(c, pid, n)
    ensures ContainerName(base, pid, n) !in containers
  {
    var container := ContainerName(base, pid, n);
    if container in containers {
      assert Numbered(container, pid, n);
      var b: string, m: nat :| m < n && container == ContainerName(b, pid, m);
      NamesDiffer(b, base, pid, m, n);
    }
  }
}
