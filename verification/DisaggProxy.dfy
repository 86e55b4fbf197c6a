/**
 The proxy of a disaggregated deployment. It runs on one event loop, so a completion is three pieces
 of code that other completions can come between but not interrupt: up to the prefill request, from
 the prefill's answer to the decode request, and from the decode's answer on. Workers are named by
 their place in the list the proxy was started with.
 */
module DisaggProxy {
  import opened Common

  datatype Json =
    | Null
    | Flag(flag: bool)
    | Number(number: int)
    | Text(text: string)
    | List(items: seq<Json>)
    | Object(fields: map<string, Json>)

  type Body = map<string, Json>

  const KV_TRANSFER_PARAMS := "kv_transfer_params"
  const STREAM := "stream"
  const STREAM_OPTIONS := "stream_options"
  const MAX_TOKENS := "max_tokens"
  const MAX_COMPLETION_TOKENS := "max_completion_tokens"
  const MIN_TOKENS := "min_tokens"

  const REMOTE_DECODE := Object(map[
    "do_remote_decode" := Flag(true),
    "do_remote_prefill" := Flag(false),
    "remote_engine_id" := Null,
    "remote_block_ids" := Null,
    "remote_host" := Null,
    "remote_port" := Null])

  /** What the prefill worker is asked: the client's request for one token, its blocks kept. */
  function PrefillBody(body: Body): Body {
    var capped := body[KV_TRANSFER_PARAMS := REMOTE_DECODE][STREAM := Flag(false)][MAX_TOKENS := Number(1)];
    (if MAX_COMPLETION_TOKENS in body then capped[MAX_COMPLETION_TOKENS := Number(1)] else capped)
    - {STREAM_OPTIONS, MIN_TOKENS}
  }

  /** The parameters an answer passes on, null without any. */
  function Passed(answer: Body): Json {
    if KV_TRANSFER_PARAMS in answer then answer[KV_TRANSFER_PARAMS] else Null
  }

  /** What the decode worker is asked: the client's request with where the blocks are. */
  function DecodeBody(body: Body, answer: Body): Body {
    body[KV_TRANSFER_PARAMS := Passed(answer)]
  }

  /** The edits made to the client's body in place. */
  method EditForPrefill(body: Body) returns (edited: Body)
    ensures edited == PrefillBody(body)
  {
    edited := body[KV_TRANSFER_PARAMS := REMOTE_DECODE][STREAM := Flag(false)][MAX_TOKENS := Number(1)];
    if MAX_COMPLETION_TOKENS in body {
      edited := edited[MAX_COMPLETION_TOKENS := Number(1)];
    }
    ghost var capped := edited;
    var keys := [STREAM_OPTIONS, MIN_TOKENS];
    for i := 0 to |keys|
      invariant edited == capped - set j | 0 <= j < i :: keys[j]
    {
      edited := edited - {keys[i]};
    }
    assert (set j | 0 <= j < |keys| :: keys[j]) == {keys[0], keys[1]};
  }

  /** The keys that differ between the client's request and the prefill's. */
  const PREFILL_KEYS: set<string> :=
    {KV_TRANSFER_PARAMS, STREAM, MAX_TOKENS, MAX_COMPLETION_TOKENS, STREAM_OPTIONS, MIN_TOKENS}

  /** The parameters ask the worker to keep its blocks for a decode elsewhere, with nothing remote to load. */
  predicate KeepsBlocks(params: Json) {
    && params.Object?
    && params.fields.Keys == {"do_remote_decode", "do_remote_prefill", "remote_engine_id", "remote_block_ids",
                              "remote_host", "remote_port"}
    && params.fields["do_remote_decode"] == Flag(true) && params.fields["do_remote_prefill"] == Flag(false)
    && forall key :: key in params.fields && key !in {"do_remote_decode", "do_remote_prefill"} ==>
         params.fields[key] == Null
  }

  /** The prefill generates one token, does not stream and keeps its blocks; all else is the client's. */
  lemma PrefillBodySpec(body: Body)
    ensures var p := PrefillBody(body);
            && p.Keys == (body.Keys - {"stream_options", "min_tokens"}) + {"kv_transfer_params", "stream", "max_tokens"}
            && KeepsBlocks(p["kv_transfer_params"])
            && p["stream"] == Flag(false)
            && p["max_tokens"] == Number(1)
            && ("max_completion_tokens" in p ==> p["max_completion_tokens"] == Number(1))
            && (forall key :: key in p && key !in PREFILL_KEYS ==> key in body && p[key] == body[key])
  {
  }

  // ---------------------------------------------------------------------------------------------
  // The completions in flight

  datatype Stage = Prefilling | Decoding | Answered(status: int) | Failed

  datatype Completion = Completion(path: string, body: Body, stage: Stage)

  /** A worker's reply: none at all, or a status and the JSON object it holds, if it holds one. */
  datatype Reply = Lost | Reply(status: int, answer: Option<Body>)

  datatype Entry =
    | Prefill(id: nat, worker: nat, path: string, body: Body)
    | PrefillReply(id: nat, reply: Reply)
    | Decode(id: nat, worker: nat, path: string, body: Body)
    | DecodeReply(id: nat, reply: Reply)

  /** The two cycles' next workers, every completion so far, and all requests and replies in order. */
  datatype State = State(nextPrefill: nat, nextDecode: nat, completions: seq<Completion>, log: seq<Entry>)

  datatype Pools = Pools(prefill: nat, decode: nat)

  predicate Staffed(pools: Pools) {
    pools.prefill > 0 && pools.decode > 0
  }

  datatype Event =
    | Receive(path: string, body: Body)
    | PrefillAnswers(id: nat, reply: Reply)
    | DecodeAnswers(id: nat, reply: Reply)

  function Next(worker: nat, workers: nat): nat {
    if worker + 1 < workers then worker + 1 else 0
  }

  predicate AtStage(s: State, id: nat, stage: Stage) {
    id < |s.completions| && s.completions[id].stage == stage
  }

  predicate Enabled(s: State, e: Event) {
    match e
    case Receive(_, _) => true
    case PrefillAnswers(id, _) => AtStage(s, id, Prefilling)
    case DecodeAnswers(id, _) => AtStage(s, id, Decoding)
  }

  function Moved(s: State, id: nat, stage: Stage): seq<Completion>
    requires id < |s.completions|
  {
    s.completions[id := s.completions[id].(stage := stage)]
  }

  function Received(s: State, path: string, body: Body, pools: Pools): State {
    s.(nextPrefill := Next(s.nextPrefill, pools.prefill),
       completions := s.completions + [Completion(path, body, Prefilling)],
       log := s.log + [Prefill(|s.completions|, s.nextPrefill, path, PrefillBody(body))])
  }

  function Prefilled(s: State, id: nat, reply: Reply, pools: Pools): State
    requires id < |s.completions|
  {
    var c := s.completions[id];
    var log := s.log + [PrefillReply(id, reply)];
    if reply.Lost? then s.(completions := Moved(s, id, Failed), log := log)
    else if reply.status != 200 then s.(completions := Moved(s, id, Answered(reply.status)), log := log)
    else if reply.answer.None? then s.(completions := Moved(s, id, Failed), log := log)
    else
      s.(nextDecode := Next(s.nextDecode, pools.decode),
         completions := Moved(s, id, Decoding),
         log := log + [Decode(id, s.nextDecode, c.path, DecodeBody(c.body, reply.answer.value))])
  }

  function Decoded(s: State, id: nat, reply: Reply): State
    requires id < |s.completions|
  {
    s.(completions := Moved(s, id, if reply.Lost? then Failed else Answered(reply.status)),
       log := s.log + [DecodeReply(id, reply)])
  }

  function Apply(s: State, e: Event, pools: Pools): State
    requires Enabled(s, e)
  {
    match e
    case Receive(path, body) => Received(s, path, body, pools)
    case PrefillAnswers(id, reply) => Prefilled(s, id, reply, pools)
    case DecodeAnswers(id, reply) => Decoded(s, id, reply)
  }

  const START := State(0, 0, [], [])

  /** s is where these events lead. */
  ghost predicate Run(es: seq<Event>, s: State, pools: Pools)
    decreases |es|
  {
    if es == [] then s == START
    else exists before :: Run(es[..|es| - 1], before, pools) && Leads(before, Last(es), s, pools)
  }

  ghost predicate Leads(before: State, e: Event, s: State, pools: Pools) {
    Enabled(before, e) && s == Apply(before, e, pools)
  }

  // ---------------------------------------------------------------------------------------------
  // Taking turns

  /** How many of these requests went to a prefill worker, any if none is named. */
  function Prefills(log: seq<Entry>, worker: Option<nat>): nat {
    if log == [] then 0
    else Prefills(log[..|log| - 1], worker)
         + if Last(log).Prefill? && (worker.None? || Last(log).worker == worker.value) then 1 else 0
  }

  function Decodes(log: seq<Entry>, worker: Option<nat>): nat {
    if log == [] then 0
    else Decodes(log[..|log| - 1], worker)
         + if Last(log).Decode? && (worker.None? || Last(log).worker == worker.value) then 1 else 0
  }

  lemma CountsSnoc(log: seq<Entry>, e: Entry, worker: Option<nat>)
    ensures Prefills(log + [e], worker) ==
            Prefills(log, worker) + if e.Prefill? && (worker.None? || e.worker == worker.value) then 1 else 0
    ensures Decodes(log + [e], worker) ==
            Decodes(log, worker) + if e.Decode? && (worker.None? || e.worker == worker.value) then 1 else 0
  {
  }

  /** Of k turns taken round n workers, those of one worker. */
  function Turns(k: nat, n: nat, worker: nat): nat
    requires n > 0
  {
    k / n + if worker < k % n then 1 else 0
  }

  lemma TurnsStep(k: nat, n: nat, worker: nat)
    requires worker < n
    ensures Turns(k + 1, n, worker) == Turns(k, n, worker) + if worker == k % n then 1 else 0
    ensures (k + 1) % n == Next(k % n, n)
  {
    var q, r := k / n, k % n;
    assert k == q * n + r;
    if r + 1 < n {
      Quotient(k + 1, n, q, r + 1);
    } else {
      assert k + 1 == (q + 1) * n + 0;
      Quotient(k + 1, n, q + 1, 0);
    }
  }

  lemma Quotient(k: int, n: int, q: int, r: int)
    requires 0 <= r < n && k == q * n + r
    ensures k / n == q && k % n == r
  {
    var d := k / n - q;
    Distribute(k / n, q, n);
    if d > 0 {
      AtLeastOnce(d, n);
    } else if d < 0 {
      AtLeastOnce(-d, n);
      Distribute(q, k / n, n);
    }
  }

  lemma Distribute(a: int, b: int, n: int)
    ensures (a - b) * n == a * n - b * n
  {
  }

  lemma AtLeastOnce(d: int, n: int)
    requires d >= 1 && n >= 0
    ensures d * n >= n
  {
  }

  /** A pool's counts, those of all its workers together first, when they were taken in turn. */
  ghost predicate PoolInTurn(count: Option<nat> -> nat, next: nat, workers: nat)
    requires workers > 0
  {
    && next == count(None) % workers
    && forall w: nat :: w < workers ==> count(Some(w)) == Turns(count(None), workers, w)
  }

  lemma PoolStep(before: Option<nat> -> nat, after: Option<nat> -> nat, next: nat, workers: nat, taken: bool)
    requires workers > 0 && PoolInTurn(before, next, workers)
    requires forall w :: after(w) == before(w) + if taken && (w.None? || w.value == next) then 1 else 0
    ensures PoolInTurn(after, if taken then Next(next, workers) else next, workers)
  {
    TurnsStep(before(None), workers, 0);
    forall w: nat | w < workers ensures after(Some(w)) == Turns(after(None), workers, w) {
      TurnsStep(before(None), workers, w);
    }
  }

  /** Each pool's requests so far went round its workers in turn. */
  ghost predicate InTurn(s: State, pools: Pools)
    requires Staffed(pools)
  {
    && PoolInTurn(w => Prefills(s.log, w), s.nextPrefill, pools.prefill)
    && PoolInTurn(w => Decodes(s.log, w), s.nextDecode, pools.decode)
  }

  lemma InTurnSnoc(s: State, t: State, e: Entry, pools: Pools)
    requires Staffed(pools) && InTurn(s, pools)
    requires t.log == s.log + [e]
    requires e.Prefill? ==> e.worker == s.nextPrefill
    requires t.nextPrefill == if e.Prefill? then Next(s.nextPrefill, pools.prefill) else s.nextPrefill
    requires e.Decode? ==> e.worker == s.nextDecode
    requires t.nextDecode == if e.Decode? then Next(s.nextDecode, pools.decode) else s.nextDecode
    ensures InTurn(t, pools)
  {
    forall w { CountsSnoc(s.log, e, w); }
    PoolStep(w => Prefills(s.log, w), w => Prefills(t.log, w), s.nextPrefill, pools.prefill, e.Prefill?);
    PoolStep(w => Decodes(s.log, w), w => Decodes(t.log, w), s.nextDecode, pools.decode, e.Decode?);
  }

  lemma StaysInTurn(s: State, e: Event, pools: Pools)
    requires Staffed(pools) && InTurn(s, pools) && Enabled(s, e)
    ensures InTurn(Apply(s, e, pools), pools)
  {
    var t := Apply(s, e, pools);
    match e
    case Receive(path, body) =>
      InTurnSnoc(s, t, Prefill(|s.completions|, s.nextPrefill, path, PrefillBody(body)), pools);
    case DecodeAnswers(id, reply) =>
      InTurnSnoc(s, t, DecodeReply(id, reply), pools);
    case PrefillAnswers(id, reply) =>
      var half := s.(log := s.log + [PrefillReply(id, reply)]);
      InTurnSnoc(s, half, PrefillReply(id, reply), pools);
      if t.log != half.log {
        InTurnSnoc(half, t, Last(t.log), pools);
      } else {
        assert InTurn(t, pools);
      }
  }

  lemma {:induction false} RunInTurn(es: seq<Event>, s: State, pools: Pools)
    requires Staffed(pools) && Run(es, s, pools)
    ensures InTurn(s, pools)
    decreases |es|
  {
    if es != [] {
      var before :| Run(es[..|es| - 1], before, pools) && Leads(before, Last(es), s, pools);
      RunInTurn(es[..|es| - 1], before, pools);
      StaysInTurn(before, Last(es), pools);
    } else {
      assert forall w: nat :: w < pools.prefill ==> Prefills([], Some(w)) == 0 == Turns(0, pools.prefill, w);
      assert forall w: nat :: w < pools.decode ==> Decodes([], Some(w)) == 0 == Turns(0, pools.decode, w);
    }
  }

  /** However completions interleave, no worker of a pool is more than one request ahead of another. */
  lemma WorkersShareEvenly(es: seq<Event>, s: State, pools: Pools, a: nat, b: nat)
    requires Staffed(pools) && Run(es, s, pools)
    ensures a < pools.prefill && b < pools.prefill ==> Prefills(s.log, Some(a)) <= Prefills(s.log, Some(b)) + 1
    ensures a < pools.decode && b < pools.decode ==> Decodes(s.log, Some(a)) <= Decodes(s.log, Some(b)) + 1
  {
    RunInTurn(es, s, pools);
  }

  // ---------------------------------------------------------------------------------------------
  // The hand-off

  /** This entry asks the prefill of a completion, for its path and body. */
  ghost predicate AsksPrefill(s: State, i: nat, id: nat) {
    && i < |s.log| && s.log[i].Prefill? && s.log[i].id == id < |s.completions|
    && s.log[i].path == s.completions[id].path
    && s.log[i].body == PrefillBody(s.completions[id].body)
  }

  /** This decode follows a 200 prefill of its completion and passes its parameters on. */
  ghost predicate HandedOff(s: State, i: nat)
    requires i < |s.log| && s.log[i].Decode?
  {
    var d := s.log[i];
    && 0 < i && d.id < |s.completions|
    && s.log[i - 1].PrefillReply? && s.log[i - 1].id == d.id
    && s.log[i - 1].reply.Reply? && s.log[i - 1].reply.status == 200 && s.log[i - 1].reply.answer.Some?
    && d.path == s.completions[d.id].path
    && d.body == DecodeBody(s.completions[d.id].body, s.log[i - 1].reply.answer.value)
    && exists j: nat :: j < i - 1 && AsksPrefill(s, j, d.id)
  }

  ghost predicate Asked(s: State, id: nat) {
    exists j: nat :: AsksPrefill(s, j, id)
  }

  /** The same request made twice, or replied to twice. */
  predicate SameRequest(a: Entry, b: Entry) {
    && a.id == b.id
    && (|| (a.Prefill? && b.Prefill?)
        || (a.PrefillReply? && b.PrefillReply?)
        || (a.Decode? && b.Decode?)
        || (a.DecodeReply? && b.DecodeReply?))
  }

  ghost predicate Orderly(s: State) {
    && (forall id: nat :: id < |s.completions| ==> Asked(s, id))
    && (forall i: nat :: i < |s.log| ==> InOrder(s, i))
    && (forall i: nat, j: nat :: i < j < |s.log| ==> !SameRequest(s.log[i], s.log[j]))
  }

  /** A reply to the completion is still to come. */
  predicate InFlight(stage: Stage) {
    stage.Prefilling? || stage.Decoding?
  }

  ghost predicate InOrder(s: State, i: nat)
    requires i < |s.log|
  {
    && s.log[i].id < |s.completions|
    && (s.log[i].Prefill? ==> AsksPrefill(s, i, s.log[i].id))
    && (s.log[i].Decode? ==> HandedOff(s, i))
    && (s.log[i].Decode? || s.log[i].PrefillReply? ==> s.completions[s.log[i].id].stage != Prefilling)
    && (s.log[i].DecodeReply? ==> !InFlight(s.completions[s.log[i].id].stage))
  }

  /** t is a later state of the same run. */
  ghost predicate Later(s: State, t: State) {
    && s.log <= t.log
    && |s.completions| <= |t.completions|
    && (forall id: nat :: id < |s.completions| ==> SameClient(s.completions[id], t.completions[id]))
  }

  predicate SameClient(c: Completion, d: Completion) {
    && c.path == d.path && c.body == d.body
    && (d.stage == Prefilling ==> c.stage == Prefilling)
    && (InFlight(d.stage) ==> InFlight(c.stage))
  }

  lemma StaysInOrder(s: State, t: State, i: nat)
    requires Later(s, t) && i < |s.log| && InOrder(s, i)
    ensures InOrder(t, i)
  {
    assert t.log[i] == s.log[i];
    assert SameClient(s.completions[s.log[i].id], t.completions[s.log[i].id]);
    if s.log[i].Decode? {
      var j: nat :| j < i - 1 && AsksPrefill(s, j, s.log[i].id);
      assert AsksPrefill(t, j, s.log[i].id);
    }
  }

  lemma OrderlySnoc(s: State, t: State, e: Entry)
    requires Orderly(s) && Later(s, t) && t.log == s.log + [e] && InOrder(t, |s.log|)
    requires forall i: nat :: i < |s.log| ==> !SameRequest(s.log[i], e)
    requires forall id: nat :: |s.completions| <= id < |t.completions| ==> Asked(t, id)
    ensures Orderly(t)
  {
    forall id: nat | id < |t.completions| ensures Asked(t, id) {
      if id < |s.completions| {
        assert Asked(s, id);
        var j: nat :| AsksPrefill(s, j, id);
        assert SameClient(s.completions[id], t.completions[id]);
        assert AsksPrefill(t, j, id);
      }
    }
    forall i: nat | i < |t.log| ensures InOrder(t, i) {
      if i < |s.log| {
        StaysInOrder(s, t, i);
      }
    }
  }

  lemma ReceivedOrderly(s: State, path: string, body: Body, pools: Pools)
    requires Orderly(s)
    ensures Orderly(Received(s, path, body, pools))
  {
    var t := Received(s, path, body, pools);
    assert AsksPrefill(t, |s.log|, |s.completions|);
    forall i: nat | i < |s.log| ensures !SameRequest(s.log[i], Last(t.log)) {
      assert InOrder(s, i);
    }
    OrderlySnoc(s, t, Last(t.log));
  }

  lemma RepliedOrderly(s: State, t: State, id: nat, reply: Reply)
    requires Orderly(s) && AtStage(s, id, Prefilling) && Later(s, t)
    requires t.log == s.log + [PrefillReply(id, reply)] && |t.completions| == |s.completions|
    requires t.completions[id].stage != Prefilling
    ensures Orderly(t)
  {
    forall i: nat | i < |s.log| ensures !SameRequest(s.log[i], PrefillReply(id, reply)) {
      assert InOrder(s, i);
    }
    OrderlySnoc(s, t, PrefillReply(id, reply));
  }

  lemma HandOffOrderly(s: State, t: State, id: nat, d: Entry)
    requires Orderly(s) && Later(s, t) && t.log == s.log + [d] && t.completions == s.completions
    requires s.log != [] && Last(s.log).PrefillReply? && Last(s.log).id == id
    requires Last(s.log).reply.Reply? && Last(s.log).reply.status == 200 && Last(s.log).reply.answer.Some?
    requires d.Decode? && d.id == id && id < |s.completions|
    requires d.path == s.completions[id].path
    requires d.body == DecodeBody(s.completions[id].body, Last(s.log).reply.answer.value)
    requires forall i: nat :: i < |s.log| && s.log[i].Decode? ==> s.log[i].id != id
    ensures Orderly(t)
  {
    assert InOrder(s, |s.log| - 1) && Asked(s, id);
    var j: nat :| AsksPrefill(s, j, id);
    assert AsksPrefill(t, j, id) && j < |s.log| - 1;
    assert HandedOff(t, |s.log|);
    OrderlySnoc(s, t, d);
  }

  lemma NotYetDecoded(s: State, id: nat)
    requires Orderly(s) && AtStage(s, id, Prefilling)
    ensures forall i: nat :: i < |s.log| && s.log[i].Decode? ==> s.log[i].id != id
  {
    forall i: nat | i < |s.log| && s.log[i].Decode? ensures s.log[i].id != id {
      assert InOrder(s, i);
    }
  }

  lemma PrefilledOrderly(s: State, id: nat, reply: Reply, pools: Pools)
    requires Orderly(s) && AtStage(s, id, Prefilling)
    ensures Orderly(Prefilled(s, id, reply, pools))
  {
    var t := Prefilled(s, id, reply, pools);
    var half := t.(log := s.log + [PrefillReply(id, reply)]);
    RepliedOrderly(s, half, id, reply);
    if t.log == half.log {
      assert t == half;
    } else {
      NotYetDecoded(s, id);
      HandOffOrderly(half, t, id, Last(t.log));
    }
  }

  lemma DecodedOrderly(s: State, id: nat, reply: Reply)
    requires Orderly(s) && AtStage(s, id, Decoding)
    ensures Orderly(Decoded(s, id, reply))
  {
    forall i: nat | i < |s.log| ensures !SameRequest(s.log[i], DecodeReply(id, reply)) {
      assert InOrder(s, i);
    }
    OrderlySnoc(s, Decoded(s, id, reply), DecodeReply(id, reply));
  }

  lemma {:induction false} RunOrderly(es: seq<Event>, s: State, pools: Pools)
    requires Run(es, s, pools)
    ensures Orderly(s)
    decreases |es|
  {
    if es == [] {
    } else {
      var before :| Run(es[..|es| - 1], before, pools) && Leads(before, Last(es), s, pools);
      RunOrderly(es[..|es| - 1], before, pools);
      match Last(es)
      case Receive(path, body) => ReceivedOrderly(before, path, body, pools);
      case PrefillAnswers(id, reply) => PrefilledOrderly(before, id, reply, pools);
      case DecodeAnswers(id, reply) => DecodedOrderly(before, id, reply);
    }
  }

  /**
   However completions interleave, a decode request follows a 200 prefill of the same completion,
   carries the parameters that prefill answered with, and is the client's own request otherwise.
   */
  lemma DecodesAreHandedOff(es: seq<Event>, s: State, pools: Pools, i: nat)
    requires Run(es, s, pools) && i < |s.log| && s.log[i].Decode?
    ensures HandedOff(s, i)
    ensures var d, client := s.log[i], s.completions[s.log[i].id];
            && (forall key :: key != KV_TRANSFER_PARAMS ==>
                  (key in d.body <==> key in client.body) && (key in d.body ==> d.body[key] == client.body[key]))
            && "kv_transfer_params" in d.body
            && d.body["kv_transfer_params"] == Passed(s.log[i - 1].reply.answer.value)
  {
    RunOrderly(es, s, pools);
    assert InOrder(s, i);
  }

  /** Every completion asks one prefill worker once and one decode worker at most once, each with at most one reply. */
  lemma OneRequestEach(es: seq<Event>, s: State, pools: Pools, id: nat)
    requires Run(es, s, pools) && id < |s.completions|
    ensures exists i: nat :: AsksPrefill(s, i, id)
    ensures forall i: nat, j: nat :: i < j < |s.log| ==> !SameRequest(s.log[i], s.log[j])
  {
    RunOrderly(es, s, pools);
    assert Asked(s, id);
  }

  predicate Succeeded(reply: Reply) {
    reply.Reply? && reply.status == 200 && reply.answer.Some?
  }

  ghost predicate HandsOn(log: seq<Entry>, i: nat) {
    i + 1 < |log| && log[i + 1].Decode? && log[i].id == log[i + 1].id
  }

  lemma {:induction false} SuccessHandsOn(es: seq<Event>, s: State, pools: Pools)
    requires Run(es, s, pools)
    ensures AllHandOn(s.log)
    decreases |es|
  {
    if es == [] {
    } else {
      var before :| Run(es[..|es| - 1], before, pools) && Leads(before, Last(es), s, pools);
      SuccessHandsOn(es[..|es| - 1], before, pools);
      StepHandsOn(before, Last(es), pools);
    }
  }

  ghost predicate AllHandOn(log: seq<Entry>) {
    forall i: nat :: i < |log| && log[i].PrefillReply? && Succeeded(log[i].reply) ==> HandsOn(log, i)
  }

  lemma StepHandsOn(s: State, e: Event, pools: Pools)
    requires AllHandOn(s.log) && Enabled(s, e)
    ensures AllHandOn(Apply(s, e, pools).log)
  {
    var log := Apply(s, e, pools).log;
    forall i: nat | i < |log| && log[i].PrefillReply? && Succeeded(log[i].reply) ensures HandsOn(log, i) {
      assert i < |s.log| ==> log[i] == s.log[i] && HandsOn(s.log, i);
      assert i < |s.log| - 1 ==> log[i + 1] == s.log[i + 1];
    }
  }

  /** A prefill's reply is handed on at once exactly when it is a 200 holding a JSON object. */
  lemma {:induction false} HandedOnExactlyAfterSuccess(es: seq<Event>, s: State, pools: Pools, i: nat)
    requires Run(es, s, pools) && i < |s.log| && s.log[i].PrefillReply?
    ensures Succeeded(s.log[i].reply) <==> HandsOn(s.log, i)
  {
    SuccessHandsOn(es, s, pools);
    RunOrderly(es, s, pools);
    assert i + 1 < |s.log| ==> InOrder(s, i + 1);
  }

  // ---------------------------------------------------------------------------------------------
  // What the client is answered

  /** Where a completion stands is what the replies to it in the log say. */
  ghost predicate Told(stage: Stage, log: seq<Entry>, id: nat) {
    && (forall k :: stage == Answered(k) <==>
          || (exists answer :: DecodeReply(id, Reply(k, answer)) in log)
          || (k != 200 && exists answer :: PrefillReply(id, Reply(k, answer)) in log))
    && (stage == Failed <==>
          DecodeReply(id, Lost) in log || PrefillReply(id, Lost) in log || PrefillReply(id, Reply(200, None)) in log)
    && (stage == Prefilling <==> forall reply :: PrefillReply(id, reply) !in log)
    && (stage == Decoding <==>
          && (exists answer :: PrefillReply(id, Reply(200, Some(answer))) in log)
          && (forall reply :: DecodeReply(id, reply) !in log))
  }

  /** A decode's reply comes after a prefill that succeeded. */
  ghost predicate RepliedInTurn(log: seq<Entry>, id: nat) {
    forall reply :: DecodeReply(id, reply) in log ==>
      exists answer :: PrefillReply(id, Reply(200, Some(answer))) in log
  }

  ghost predicate AllTold(s: State) {
    && (forall id: nat :: id < |s.completions| ==>
          Told(s.completions[id].stage, s.log, id) && RepliedInTurn(s.log, id))
    && (forall e :: e in s.log ==> e.id < |s.completions|)
  }

  /** An entry that is no reply to this completion tells nothing about it. */
  lemma NothingNew(stage: Stage, log: seq<Entry>, e: Entry, id: nat)
    requires e.id == id ==> e.Prefill? || e.Decode?
    ensures Told(stage, log + [e], id) <==> Told(stage, log, id)
    ensures RepliedInTurn(log + [e], id) <==> RepliedInTurn(log, id)
  {
    var longer := log + [e];
    assert forall reply :: PrefillReply(id, reply) in longer <==> PrefillReply(id, reply) in log;
    assert forall reply :: DecodeReply(id, reply) in longer <==> DecodeReply(id, reply) in log;
  }

  lemma PrefillTells(log: seq<Entry>, id: nat, reply: Reply)
    requires Told(Prefilling, log, id) && RepliedInTurn(log, id)
    ensures var stage := if reply.Lost? then Failed
                         else if reply.status != 200 then Answered(reply.status)
                         else if reply.answer.None? then Failed
                         else Decoding;
            Told(stage, log + [PrefillReply(id, reply)], id)
    ensures RepliedInTurn(log + [PrefillReply(id, reply)], id)
  {
    var longer := log + [PrefillReply(id, reply)];
    assert forall other :: PrefillReply(id, other) in longer <==> other == reply;
    assert forall other :: DecodeReply(id, other) !in longer;
  }

  lemma DecodeTells(log: seq<Entry>, id: nat, reply: Reply)
    requires Told(Decoding, log, id)
    ensures Told(if reply.Lost? then Failed else Answered(reply.status), log + [DecodeReply(id, reply)], id)
    ensures RepliedInTurn(log + [DecodeReply(id, reply)], id)
  {
    var longer := log + [DecodeReply(id, reply)];
    assert forall other :: PrefillReply(id, other) in longer <==> PrefillReply(id, other) in log;
    assert forall other :: DecodeReply(id, other) in longer <==> other == reply;
  }

  lemma StepTells(s: State, e: Event, pools: Pools)
    requires AllTold(s) && Enabled(s, e)
    ensures AllTold(Apply(s, e, pools))
  {
    var t := Apply(s, e, pools);
    forall id: nat | id < |t.completions|
      ensures Told(t.completions[id].stage, t.log, id) && RepliedInTurn(t.log, id)
    {
      match e
      case Receive(path, body) =>
        NothingNew(Prefilling, s.log, Last(t.log), id);
        if id < |s.completions| {
          NothingNew(s.completions[id].stage, s.log, Last(t.log), id);
        }
      case DecodeAnswers(_, reply) =>
        if id == e.id {
          DecodeTells(s.log, id, reply);
        } else {
          NothingNew(s.completions[id].stage, s.log, Last(t.log), id);
        }
      case PrefillAnswers(_, reply) =>
        var half := s.log + [PrefillReply(e.id, reply)];
        if id == e.id {
          PrefillTells(s.log, id, reply);
        } else {
          NothingNew(s.completions[id].stage, s.log, Last(half), id);
        }
        if t.log != half {
          NothingNew(t.completions[id].stage, half, Last(t.log), id);
        }
    }
  }

  lemma {:induction false} RunTells(es: seq<Event>, s: State, pools: Pools)
    requires Run(es, s, pools)
    ensures AllTold(s)
    decreases |es|
  {
    if es == [] {
    } else {
      var before :| Run(es[..|es| - 1], before, pools) && Leads(before, Last(es), s, pools);
      RunTells(es[..|es| - 1], before, pools);
      StepTells(before, Last(es), pools);
    }
  }

  /**
   However completions interleave: one is answered with a status exactly when its decode replied with
   it, or its prefill with one other than 200; it has failed exactly when a reply was lost, or its
   prefill's 200 held no JSON object; and it waits exactly while the reply it waits for is missing.
   */
  lemma AnsweredAsReplied(es: seq<Event>, s: State, pools: Pools, id: nat)
    requires Run(es, s, pools) && id < |s.completions|
    ensures Told(s.completions[id].stage, s.log, id)
  {
    RunTells(es, s, pools);
  }

  // ---------------------------------------------------------------------------------------------
  // The proxy itself

  /** itertools.cycle over a pool's workers. */
  class Cycle {
    const workers: nat
    var next: nat

    constructor (workers: nat)
      ensures this.workers == workers && next == 0
    {
      this.workers := workers;
      next := 0;
    }

    method Take() returns (worker: nat)
      modifies this
      ensures worker == old(next) && next == Next(old(next), workers)
    {
      worker := next;
      next := next + 1;
      if next >= workers {
        next := 0;
      }
    }
  }

  class Proxy {
    const pools: Pools
    const prefillWorkers: Cycle
    const decodeWorkers: Cycle
    var completions: seq<Completion>
    var log: seq<Entry>

    ghost predicate Valid() {
      && prefillWorkers != decodeWorkers
      && prefillWorkers.workers == pools.prefill && decodeWorkers.workers == pools.decode
    }

    ghost function Now(): State
      reads this, prefillWorkers, decodeWorkers
    {
      State(prefillWorkers.next, decodeWorkers.next, completions, log)
    }

    constructor (pools: Pools)
      ensures Valid() && this.pools == pools && Now() == START
      ensures fresh(prefillWorkers) && fresh(decodeWorkers)
    {
      this.pools := pools;
      prefillWorkers := new Cycle(pools.prefill);
      decodeWorkers := new Cycle(pools.decode);
      completions, log := [], [];
    }

    /** completion, up to the prefill request. */
    method Receive(path: string, body: Body) returns (id: nat)
      requires Valid()
      modifies this, prefillWorkers, decodeWorkers
      ensures Valid() && id == old(|completions|)
      ensures Now() == Apply(old(Now()), Event.Receive(path, body), pools)
    {
      id := |completions|;
      completions := completions + [Completion(path, body, Prefilling)];
      var prefillBody := EditForPrefill(body);
      var worker := prefillWorkers.Take();
      log := log + [Prefill(id, worker, path, prefillBody)];
    }

    /** completion, from the prefill's reply to the decode request. */
    method PrefillAnswers(id: nat, reply: Reply)
      requires Valid() && Enabled(Now(), Event.PrefillAnswers(id, reply))
      modifies this, prefillWorkers, decodeWorkers
      ensures Valid()
      ensures Now() == Apply(old(Now()), Event.PrefillAnswers(id, reply), pools)
    {
      log := log + [PrefillReply(id, reply)];
      if reply.Lost? {
        completions := completions[id := completions[id].(stage := Failed)];
        return;
      }
      if reply.status != 200 {
        completions := completions[id := completions[id].(stage := Answered(reply.status))];
        return;
      }
      if reply.answer.None? {
        completions := completions[id := completions[id].(stage := Failed)];
        return;
      }
      var decodeBody := DecodeBody(completions[id].body, reply.answer.value);
      var worker := decodeWorkers.Take();
      log := log + [Decode(id, worker, completions[id].path, decodeBody)];
      completions := completions[id := completions[id].(stage := Decoding)];
    }

    /** completion, from the decode's reply on. */
    method DecodeAnswers(id: nat, reply: Reply)
      requires Valid() && Enabled(Now(), Event.DecodeAnswers(id, reply))
      modifies this, prefillWorkers, decodeWorkers
      ensures Valid()
      ensures Now() == Apply(old(Now()), Event.DecodeAnswers(id, reply), pools)
    {
      log := log + [DecodeReply(id, reply)];
      var stage := if reply.Lost? then Failed else Answered(reply.status);
      completions := completions[id := completions[id].(stage := stage)];
    }
  }
}
