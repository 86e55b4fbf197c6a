/** Which GPUs and ports each worker of a disaggregated vLLM deployment gets. */
module VllmWorkers {
  import opened Common
  import opened Sorting

  const PREFILL_BASE_PORT: int := 8100
  const DECODE_BASE_PORT: int := 8200
  const NIXL_SIDE_CHANNEL_BASE_PORT: int := 5600

  datatype Role = Server | Prefill | Decode

  datatype Pool = Pool(workers: nat, tensorParallel: nat)

  datatype VllmWorker = VllmWorker(role: Role, port: Option<int>, gpus: seq<int>, sideChannelPort: Option<int>,
                                   hostname: string)

  function BasePort(role: Role): int {
    if role.Prefill? then PREFILL_BASE_PORT else DECODE_BASE_PORT
  }

  /** range(first, first + n) */
  function Range(first: int, n: nat): seq<int> {
    seq(n, i => first + i)
  }

  /** The number of GPUs the first k workers take, prefill workers first. */
  function GpusBefore(prefill: Pool, decode: Pool, k: nat): nat {
    if k <= prefill.workers then k * prefill.tensorParallel
    else prefill.workers * prefill.tensorParallel + (k - prefill.workers) * decode.tensorParallel
  }

  function WorkerAt(prefill: Pool, decode: Pool, hostname: string, k: nat): VllmWorker {
    var first := GpusBefore(prefill, decode, k);
    var side := Some(NIXL_SIDE_CHANNEL_BASE_PORT + k);
    if k < prefill.workers then
      VllmWorker(Prefill, Some(PREFILL_BASE_PORT + k), Range(first, prefill.tensorParallel), side, hostname)
    else
      VllmWorker(Decode, Some(DECODE_BASE_PORT + k - prefill.workers), Range(first, decode.tensorParallel), side,
                 hostname)
  }

  /** The loops of disaggregated_workers: one counter hands out the GPUs, the list's length the side channels. */
  method DisaggregatedWorkers(prefill: Pool, decode: Pool, hostname: string) returns (workers: seq<VllmWorker>)
    ensures |workers| == prefill.workers + decode.workers
    ensures forall k :: 0 <= k < |workers| ==> workers[k] == WorkerAt(prefill, decode, hostname, k)
  {
    workers := [];
    var nextGpu := 0;
    var roles := [(Prefill, prefill), (Decode, decode)];
    for r := 0 to 2
      invariant |workers| ==
                (if r == 0 then 0 else if r == 1 then prefill.workers else prefill.workers + decode.workers)
      invariant nextGpu == GpusBefore(prefill, decode, |workers|)
      invariant forall k :: 0 <= k < |workers| ==> workers[k] == WorkerAt(prefill, decode, hostname, k)
    {
      var (role, pool) := roles[r];
      ghost var before := |workers|;
      for index := 0 to pool.workers
        invariant |workers| == before + index
        invariant nextGpu == GpusBefore(prefill, decode, |workers|)
        invariant forall k :: 0 <= k < |workers| ==> workers[k] == WorkerAt(prefill, decode, hostname, k)
      {
        var gpus := Range(nextGpu, pool.tensorParallel);
        var sideChannel := NIXL_SIDE_CHANNEL_BASE_PORT + |workers|;
        GpusOneMore(prefill, decode, |workers|);
        workers := workers + [VllmWorker(role, Some(BasePort(role) + index), gpus, Some(sideChannel), hostname)];
        nextGpu := nextGpu + pool.tensorParallel;
      }
    }
  }

  lemma GpusOneMore(prefill: Pool, decode: Pool, k: nat)
    ensures GpusBefore(prefill, decode, k + 1) == GpusBefore(prefill, decode, k) +
              if k < prefill.workers then prefill.tensorParallel else decode.tensorParallel
  {
  }

  /** A list of workers as disaggregated_workers makes it. */
  ghost predicate Allocated(workers: seq<VllmWorker>, prefill: Pool, decode: Pool, hostname: string) {
    && |workers| == prefill.workers + decode.workers
    && forall k :: 0 <= k < |workers| ==> workers[k] == WorkerAt(prefill, decode, hostname, k)
  }

  lemma {:induction false} GpusMonotone(prefill: Pool, decode: Pool, j: nat, k: nat)
    requires j <= k
    ensures GpusBefore(prefill, decode, j) <= GpusBefore(prefill, decode, k)
  {
    if j == k {
    } else {
      GpusMonotone(prefill, decode, j, k - 1);
      GpusOneMore(prefill, decode, k - 1);
    }
  }

  lemma GpuOfWorker(prefill: Pool, decode: Pool, hostname: string, k: nat, gpu: int)
    ensures gpu in WorkerAt(prefill, decode, hostname, k).gpus <==>
            GpusBefore(prefill, decode, k) <= gpu < GpusBefore(prefill, decode, k + 1)
  {
    GpusOneMore(prefill, decode, k);
    var gpus := WorkerAt(prefill, decode, hostname, k).gpus;
    var first := GpusBefore(prefill, decode, k);
    if first <= gpu < GpusBefore(prefill, decode, k + 1) {
      assert gpus[gpu - first] == gpu;
    }
  }

  /** Every GPU below the total belongs to some worker. */
  lemma {:induction false} WorkerOfGpu(prefill: Pool, decode: Pool, n: nat, gpu: nat) returns (k: nat)
    requires gpu < GpusBefore(prefill, decode, n)
    ensures k < n && GpusBefore(prefill, decode, k) <= gpu < GpusBefore(prefill, decode, k + 1)
  {
    if GpusBefore(prefill, decode, n - 1) <= gpu {
      k := n - 1;
    } else {
      k := WorkerOfGpu(prefill, decode, n - 1, gpu);
    }
  }

  ghost predicate Used(workers: seq<VllmWorker>, gpu: int) {
    exists k :: 0 <= k < |workers| && gpu in workers[k].gpus
  }

  lemma GpusDisjoint(workers: seq<VllmWorker>, prefill: Pool, decode: Pool, hostname: string)
    requires Allocated(workers, prefill, decode, hostname)
    ensures forall j, k, gpu :: 0 <= j < k < |workers| && gpu in workers[j].gpus ==> gpu !in workers[k].gpus
  {
    forall j, k, gpu | 0 <= j < k < |workers| && gpu in workers[j].gpus ensures gpu !in workers[k].gpus {
      GpuOfWorker(prefill, decode, hostname, j, gpu);
      GpuOfWorker(prefill, decode, hostname, k, gpu);
      GpusMonotone(prefill, decode, j + 1, k);
    }
  }

  lemma GpusCover(workers: seq<VllmWorker>, prefill: Pool, decode: Pool, hostname: string, gpu: int)
    requires Allocated(workers, prefill, decode, hostname)
    ensures Used(workers, gpu) <==> 0 <= gpu < GpusBefore(prefill, decode, |workers|)
  {
    if k :| 0 <= k < |workers| && gpu in workers[k].gpus {
      GpuOfWorker(prefill, decode, hostname, k, gpu);
      GpusMonotone(prefill, decode, k + 1, |workers|);
    }
    if 0 <= gpu < GpusBefore(prefill, decode, |workers|) {
      var k := WorkerOfGpu(prefill, decode, |workers|, gpu);
      GpuOfWorker(prefill, decode, hostname, k, gpu);
      assert gpu in workers[k].gpus;
    }
  }

  /**
   The workers' GPUs are contiguous tuples of the pool's size, no GPU goes to two workers, and
   together they are exactly 0 up to the total.
   */
  lemma GpusPartition(workers: seq<VllmWorker>, prefill: Pool, decode: Pool, hostname: string)
    requires Allocated(workers, prefill, decode, hostname)
    ensures forall k :: 0 <= k < |workers| ==>
              |workers[k].gpus| == (if workers[k].role.Prefill? then prefill.tensorParallel else decode.tensorParallel)
    ensures forall k, i :: 0 <= k < |workers| && 0 <= i < |workers[k].gpus| ==>
            workers[k].gpus[i] == workers[k].gpus[0] + i
    ensures forall j, k, gpu :: 0 <= j < k < |workers| && gpu in workers[j].gpus ==> gpu !in workers[k].gpus
    ensures var total := prefill.workers * prefill.tensorParallel + decode.workers * decode.tensorParallel;
            forall gpu :: Used(workers, gpu) <==> 0 <= gpu < total
  {
    GpusDisjoint(workers, prefill, decode, hostname);
    GpusTotal(prefill, decode);
    forall gpu ensures Used(workers, gpu) <==> 0 <= gpu < GpusBefore(prefill, decode, |workers|) {
      GpusCover(workers, prefill, decode, hostname, gpu);
    }
  }

  /** What each worker gets: its own ports, counted from its role's, and the next GPUs. */
  lemma WorkersInOrder(workers: seq<VllmWorker>, prefill: Pool, decode: Pool, hostname: string, k: nat)
    requires Allocated(workers, prefill, decode, hostname) && k < |workers|
    ensures workers[k].hostname == hostname && workers[k].sideChannelPort == Some(5600 + k)
    ensures k < prefill.workers ==>
              && workers[k].role == Prefill && workers[k].port == Some(8100 + k)
              && |workers[k].gpus| == prefill.tensorParallel
              && forall i :: 0 <= i < |workers[k].gpus| ==> workers[k].gpus[i] == k * prefill.tensorParallel + i
    ensures k >= prefill.workers ==>
              var j := k - prefill.workers;
              && workers[k].role == Decode && workers[k].port == Some(8200 + j)
              && |workers[k].gpus| == decode.tensorParallel
              && forall i :: 0 <= i < |workers[k].gpus| ==>
                   workers[k].gpus[i] == prefill.workers * prefill.tensorParallel + j * decode.tensorParallel + i
  {
    assert workers[k] == WorkerAt(prefill, decode, hostname, k);
    assert 0 * decode.tensorParallel == 0;
  }

  lemma GpusTotal(prefill: Pool, decode: Pool)
    ensures GpusBefore(prefill, decode, prefill.workers + decode.workers)
         == prefill.workers * prefill.tensorParallel + decode.workers * decode.tensorParallel
  {
  }

  // ---------------------------------------------------------------------------------------------
  // needed_gpus

  /** The GPUs of all workers, each once. */
  function GpuSet(workers: seq<VllmWorker>): seq<int> {
    if workers == [] then [] else AddNew(GpuSet(workers[..|workers| - 1]), Last(workers).gpus)
  }

  function AddNew(seen: seq<int>, gpus: seq<int>): seq<int> {
    if gpus == [] then seen
    else
      var before := AddNew(seen, gpus[..|gpus| - 1]);
      if Last(gpus) in before then before else before + [Last(gpus)]
  }

  predicate AtMost(a: int, b: int) { a <= b }

  function NeededGpus(workers: seq<VllmWorker>): seq<int> {
    Sort(AtMost, GpuSet(workers))
  }

  lemma {:induction false} AddNewSpec(seen: seq<int>, gpus: seq<int>)
    requires Distinct(seen)
    ensures Distinct(AddNew(seen, gpus))
    ensures forall g :: g in AddNew(seen, gpus) <==> g in seen || g in gpus
  {
    if gpus == [] {
    } else {
      AddNewSpec(seen, gpus[..|gpus| - 1]);
      assert gpus == gpus[..|gpus| - 1] + [Last(gpus)];
    }
  }

  lemma {:induction false} GpuSetSpec(workers: seq<VllmWorker>)
    ensures Distinct(GpuSet(workers))
    ensures forall g :: g in GpuSet(workers) <==> Used(workers, g)
  {
    if workers == [] {
    } else {
      var front := workers[..|workers| - 1];
      GpuSetSpec(front);
      AddNewSpec(GpuSet(front), Last(workers).gpus);
      forall g ensures g in GpuSet(workers) <==> Used(workers, g) {
        assert g in GpuSet(front) <==> Used(front, g);
        if k :| 0 <= k < |workers| && g in workers[k].gpus {
          assert k < |front| ==> g in front[k].gpus;
        }
        if k :| 0 <= k < |front| && g in front[k].gpus {
          assert g in workers[k].gpus;
        }
        assert g in Last(workers).gpus ==> g in workers[|workers| - 1].gpus;
      }
    }
  }

  lemma NeededIsRange(workers: seq<VllmWorker>, total: nat)
    requires forall g :: Used(workers, g) <==> 0 <= g < total
    ensures NeededGpus(workers) == Range(0, total)
  {
    var gpus, all := NeededGpus(workers), Range(0, total);
    GpuSetSpec(workers);
    SortSpec(AtMost, GpuSet(workers));
    forall g ensures g in gpus <==> g in all {
      assert 0 <= g < total ==> all[g] == g;
    }
    SortedUnique(AtMost, gpus, all);
  }

  /** needed_gpus returns exactly 0 up to the total, in order. */
  lemma NeededGpusAreAll(workers: seq<VllmWorker>, prefill: Pool, decode: Pool, hostname: string)
    requires Allocated(workers, prefill, decode, hostname)
    ensures NeededGpus(workers) ==
            Range(0, prefill.workers * prefill.tensorParallel + decode.workers * decode.tensorParallel)
  {
    forall gpu ensures Used(workers, gpu) <==> 0 <= gpu < GpusBefore(prefill, decode, |workers|) {
      GpusCover(workers, prefill, decode, hostname, gpu);
    }
    NeededIsRange(workers, GpusBefore(prefill, decode, |workers|));
    GpusTotal(prefill, decode);
  }

  // ---------------------------------------------------------------------------------------------
  // Ports

  ghost predicate DistinctPorts(workers: seq<VllmWorker>) {
    forall j, k :: 0 <= j < k < |workers| ==> workers[j].port != workers[k].port
  }

  /** Side-channel ports never clash; HTTP ports do exactly when over 100 prefill workers meet a decode worker. */
  lemma PortsDistinct(workers: seq<VllmWorker>, prefill: Pool, decode: Pool, hostname: string)
    requires Allocated(workers, prefill, decode, hostname)
    ensures forall j, k :: 0 <= j < k < |workers| ==> workers[j].sideChannelPort != workers[k].sideChannelPort
    ensures DistinctPorts(workers) <==> prefill.workers <= 100 || decode.workers == 0
  {
    if prefill.workers > 100 && decode.workers > 0 {
      assert workers[100].port == Some(8200) == workers[prefill.workers].port;
    }
  }
}
