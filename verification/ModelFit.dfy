/** Whether a model fits the GPUs it is given: its weights, and the KV cache of one full-length request. */
module ModelFit {
  import opened Common

  const GPU_OVERHEAD_BYTES: int := 536870912  // half a GiB

  /** The fields of a Hugging Face config the estimate reads; None where the field is missing or null. */
  datatype ModelConfig = ModelConfig(
    attentionHeads: nat,
    keyValueHeads: Option<nat>,
    headDim: Option<nat>,
    hiddenSize: nat,
    hiddenLayers: nat,
    dtype: Option<string>)

  /** Python's truth of an optional count: zero counts as missing. */
  predicate Given(value: Option<nat>) {
    value.Some? && value.value != 0
  }

  /** A config is usable when the head size it leaves out can be worked out. */
  predicate Usable(c: ModelConfig) { Given(c.headDim) || c.attentionHeads > 0 }

  function KvHeads(c: ModelConfig): nat {
    if Given(c.keyValueHeads) then c.keyValueHeads.value else c.attentionHeads
  }

  function HeadDim(c: ModelConfig): nat
    requires Usable(c)
  {
    if Given(c.headDim) then c.headDim.value else c.hiddenSize / c.attentionHeads
  }

  function DtypeBytes(c: ModelConfig): nat {
    if c.dtype == Some("float32") then 4 else 2
  }

  function CeilDiv(a: nat, b: nat): (q: nat)
    requires b > 0
    ensures b * (q - 1) < a <= b * q
  {
    var q := (a + b - 1) / b;
    assert b * q + (a + b - 1) % b == a + b - 1;
    q
  }

  function Times(a: nat, b: nat): nat { a * b }

  /** KV cache per token for one KV head. */
  function BytesPerHead(c: ModelConfig): nat
    requires Usable(c)
  {
    Times(Times(2 * c.hiddenLayers, HeadDim(c)), DtypeBytes(c))
  }

  /** KV cache per token on each GPU: a KV head is never split, so the share is rounded up. */
  function KvBytesPerToken(c: ModelConfig, tensorParallel: nat): nat
    requires Usable(c) && tensorParallel > 0
  {
    Times(Times(Times(2 * c.hiddenLayers, CeilDiv(KvHeads(c), tensorParallel)), HeadDim(c)), DtypeBytes(c))
  }

  /**
   A field that is missing or 0 counts as its default spelled out, and single precision takes twice
   the room of any other type.
   */
  lemma DefaultsSpelledOut(c: ModelConfig, tensorParallel: nat)
    requires tensorParallel > 0 && c.attentionHeads > 0
    ensures c.keyValueHeads in {None, Some(0)} ==>
              KvBytesPerToken(c, tensorParallel) ==
              KvBytesPerToken(c.(keyValueHeads := Some(c.attentionHeads)), tensorParallel)
    ensures c.headDim in {None, Some(0)} ==>
              KvBytesPerToken(c, tensorParallel) ==
              KvBytesPerToken(c.(headDim := Some(c.hiddenSize / c.attentionHeads)), tensorParallel)
    ensures c.dtype != Some("float32") ==>
              KvBytesPerToken(c.(dtype := Some("float32")), tensorParallel) == 2 * KvBytesPerToken(c, tensorParallel)
  {
    var cells := 2 * c.hiddenLayers * CeilDiv(KvHeads(c), tensorParallel) * HeadDim(c);
    assert cells * 4 == 2 * (cells * 2);
  }

  /** 128 KiB for 32 layers with 8 KV heads of size 4096 / 32 in half precision; past one head per GPU it stays. */
  lemma HalfPrecisionCache(c: ModelConfig)
    requires c == ModelConfig(32, Some(8), None, 4096, 32, None)
    ensures KvBytesPerToken(c, 1) == 131072
    ensures KvBytesPerToken(c, 8) == 16384 && KvBytesPerToken(c, 16) == 16384
  {
    assert HeadDim(c) == 128;
    WholeShare(8);
    HalfPrecision(c, 1, 8);
    OneHead(8, 8);
    HalfPrecision(c, 8, 1);
    OneHead(8, 16);
    HalfPrecision(c, 16, 1);
  }

  lemma HalfPrecision(c: ModelConfig, tensorParallel: nat, share: nat)
    requires Usable(c) && tensorParallel > 0 && CeilDiv(KvHeads(c), tensorParallel) == share
    requires c.hiddenLayers == 32 && HeadDim(c) == 128 && DtypeBytes(c) == 2
    ensures KvBytesPerToken(c, tensorParallel) == 16384 * share
  {
  }

  lemma OneHead(heads: nat, gpus: nat)
    requires 0 < heads <= gpus
    ensures CeilDiv(heads, gpus) == 1
  {
    var q: int := CeilDiv(heads, gpus);
    assert q >= 2 ==> gpus * (q - 1) >= gpus;
    assert q <= 0 ==> gpus * q <= 0;
  }

  datatype Verdict = Fits | WeightsTooLarge | CacheTooLarge

  /** gpu_shortfall, without the wording of its messages. */
  function GpuShortfall(c: ModelConfig, weightBytes: nat, gpuBytes: nat, tensorParallel: nat, utilization: real,
                        maxModelLen: nat): Verdict
    requires Usable(c) && tensorParallel > 0
  {
    var usable := gpuBytes as real * utilization;
    var weights := weightBytes as real / tensorParallel as real;
    var kvRoom := usable - weights - GPU_OVERHEAD_BYTES as real;
    if weights + GPU_OVERHEAD_BYTES as real > usable then WeightsTooLarge
    else if (maxModelLen * KvBytesPerToken(c, tensorParallel)) as real > kvRoom then CacheTooLarge
    else Fits
  }

  /** The two checks amount to one inequality. */
  lemma FitsIff(c: ModelConfig, weightBytes: nat, gpuBytes: nat, tensorParallel: nat, utilization: real,
                maxModelLen: nat)
    requires Usable(c) && tensorParallel > 0
    ensures GpuShortfall(c, weightBytes, gpuBytes, tensorParallel, utilization, maxModelLen) == Fits <==>
            weightBytes as real / tensorParallel as real + 536870912.0
              + (maxModelLen * KvBytesPerToken(c, tensorParallel)) as real <= gpuBytes as real * utilization
  {
  }

  /** The weights are blamed exactly when not even a request of no tokens fits. */
  lemma WeightsAreToBlame(c: ModelConfig, weightBytes: nat, gpuBytes: nat, tensorParallel: nat, utilization: real,
                          maxModelLen: nat)
    requires Usable(c) && tensorParallel > 0
    ensures GpuShortfall(c, weightBytes, gpuBytes, tensorParallel, utilization, maxModelLen) == WeightsTooLarge <==>
            forall length: nat :: GpuShortfall(c, weightBytes, gpuBytes, tensorParallel, utilization, length) != Fits
  {
    assert 0 * KvBytesPerToken(c, tensorParallel) == 0;
    if GpuShortfall(c, weightBytes, gpuBytes, tensorParallel, utilization, maxModelLen) != WeightsTooLarge {
      assert GpuShortfall(c, weightBytes, gpuBytes, tensorParallel, utilization, 0) == Fits;
    }
  }

  /** Some request with tokens in it fits. */
  ghost predicate SomeLengthFits(c: ModelConfig, weightBytes: nat, gpuBytes: nat, tensorParallel: nat,
                                 utilization: real)
    requires Usable(c) && tensorParallel > 0
  {
    exists length: nat ::
      length >= 1 && GpuShortfall(c, weightBytes, gpuBytes, tensorParallel, utilization, length) == Fits
  }

  /** Lowering max_model_len helps exactly when one token's cache fits beside the weights, whatever is blamed. */
  lemma LoweringHelpsIff(c: ModelConfig, weightBytes: nat, gpuBytes: nat, tensorParallel: nat, utilization: real)
    requires Usable(c) && tensorParallel > 0
    ensures SomeLengthFits(c, weightBytes, gpuBytes, tensorParallel, utilization) <==>
            weightBytes as real / tensorParallel as real + GPU_OVERHEAD_BYTES as real
              + KvBytesPerToken(c, tensorParallel) as real <= gpuBytes as real * utilization
  {
    FitsIff(c, weightBytes, gpuBytes, tensorParallel, utilization, 1);
    if length: nat :|
      length >= 1 && GpuShortfall(c, weightBytes, gpuBytes, tensorParallel, utilization, length) == Fits
    {
      FitsOnMoreAndShorter(c, weightBytes, gpuBytes, utilization, tensorParallel, tensorParallel, length, 1);
    }
  }

  /** Between the two, the cache is blamed at every length, and the advice to lower it never helps. */
  lemma CacheIsBlamedInVain(c: ModelConfig, weightBytes: nat, gpuBytes: nat, tensorParallel: nat, utilization: real,
                            length: nat)
    requires Usable(c) && tensorParallel > 0 && length >= 1
    requires var needed := weightBytes as real / tensorParallel as real + GPU_OVERHEAD_BYTES as real;
             needed <= gpuBytes as real * utilization < needed + KvBytesPerToken(c, tensorParallel) as real
    ensures GpuShortfall(c, weightBytes, gpuBytes, tensorParallel, utilization, length) == CacheTooLarge
  {
    ProductMonotone(1, length, KvBytesPerToken(c, tensorParallel), KvBytesPerToken(c, tensorParallel));
  }

  /** As for 32 layers of 8 KV heads of size 128, where the weights leave 1000 bytes. */
  lemma ThousandBytesAreTooFew(length: nat)
    requires length >= 1
    ensures var c := ModelConfig(32, Some(8), Some(128), 4096, 32, Some("bfloat16"));
            GpuShortfall(c, 1000000, 537871912, 1, 1.0, length) == CacheTooLarge
  {
    var c := ModelConfig(32, Some(8), Some(128), 4096, 32, Some("bfloat16"));
    WholeShare(8);
    assert KvBytesPerToken(c, 1) == 131072;
    CacheIsBlamedInVain(c, 1000000, 537871912, 1, 1.0, length);
  }

  lemma MulOrder(b: int, x: int, y: int)
    requires b > 0
    ensures x >= y ==> b * x >= b * y
  {
  }

  lemma CeilDivAntitone(a: nat, b: nat, c: nat)
    requires 0 < b <= c
    ensures CeilDiv(a, c) <= CeilDiv(a, b)
  {
    var p: int, q: int := CeilDiv(a, b), CeilDiv(a, c);
    assert (c - b) * p >= 0;
    assert c * p == b * p + (c - b) * p;
    MulOrder(c, q - 1, p);
  }

  lemma KvIsShareTimesHead(c: ModelConfig, tensorParallel: nat)
    requires Usable(c) && tensorParallel > 0
    ensures KvBytesPerToken(c, tensorParallel) == CeilDiv(KvHeads(c), tensorParallel) * BytesPerHead(c)
  {
  }

  lemma ProductMonotone(a: nat, b: nat, x: nat, y: nat)
    requires a <= b && x <= y
    ensures a * x <= b * y
  {
  }

  lemma ShareShrinks(weightBytes: nat, tp: nat, tp': nat)
    requires 0 < tp <= tp'
    ensures weightBytes as real / tp' as real <= weightBytes as real / tp as real
  {
  }

  /** A model that fits keeps fitting on more GPUs and for shorter requests. */
  lemma FitsOnMoreAndShorter(c: ModelConfig, weightBytes: nat, gpuBytes: nat, utilization: real,
                             tp: nat, tp': nat, maxModelLen: nat, maxModelLen': nat)
    requires Usable(c) && 0 < tp <= tp' && maxModelLen' <= maxModelLen
    requires GpuShortfall(c, weightBytes, gpuBytes, tp, utilization, maxModelLen) == Fits
    ensures GpuShortfall(c, weightBytes, gpuBytes, tp', utilization, maxModelLen') == Fits
  {
    FitsIff(c, weightBytes, gpuBytes, tp, utilization, maxModelLen);
    FitsIff(c, weightBytes, gpuBytes, tp', utilization, maxModelLen');
    CeilDivAntitone(KvHeads(c), tp, tp');
    KvIsShareTimesHead(c, tp);
    KvIsShareTimesHead(c, tp');
    ProductMonotone(CeilDiv(KvHeads(c), tp'), CeilDiv(KvHeads(c), tp), BytesPerHead(c), BytesPerHead(c));
    ProductMonotone(maxModelLen', maxModelLen, KvBytesPerToken(c, tp'), KvBytesPerToken(c, tp));
    ShareShrinks(weightBytes, tp, tp');
  }

  /** The GPUs together hold at least the whole cache, and exactly it when the KV heads divide evenly. */
  lemma SharesCoverTheCache(c: ModelConfig, tp: nat)
    requires Usable(c) && tp > 0
    ensures tp * KvBytesPerToken(c, tp) >= KvBytesPerToken(c, 1)
    ensures BytesPerHead(c) > 0 ==> (tp * KvBytesPerToken(c, tp) == KvBytesPerToken(c, 1) <==> KvHeads(c) % tp == 0)
  {
    KvIsShareTimesHead(c, tp);
    KvIsShareTimesHead(c, 1);
    WholeShare(KvHeads(c));
    SharesCover(KvHeads(c), tp, CeilDiv(KvHeads(c), tp), BytesPerHead(c), KvBytesPerToken(c, tp),
                KvBytesPerToken(c, 1));
    DividesIff(KvHeads(c), tp);
  }

  lemma WholeShare(a: nat)
    ensures CeilDiv(a, 1) == a
  {
  }

  lemma SharesCover(kv: nat, tp: nat, q: nat, b: nat, share: nat, whole: nat)
    requires tp * q >= kv && share == q * b && whole == kv * b
    ensures tp * share >= whole
    ensures b > 0 ==> (tp * share == whole <==> tp * q == kv)
  {
  }

  lemma DividesIff(a: nat, b: nat)
    requires b > 0
    ensures b * CeilDiv(a, b) == a <==> a % b == 0
  {
    var q: int, k: int := CeilDiv(a, b), a / b;
    assert b * k + a % b == a;
    MulOrder(b, q - 1, k);
    MulOrder(b, k, q + 1);
    assert b * (q + 1) == b * q + b;
    assert b * (q - k) == b * q - b * k;
    MulOrder(b, q - k, 1);
    MulOrder(b, -1, q - k);
  }
}
