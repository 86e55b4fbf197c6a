/**
 The check of a profile's RoPE override against the model, the repairs it offers, and the YAML lines
 it offers them as.
 */
module RopeOverride {
  import opened Common

  /** A value of a profile, its mappings in insertion order. */
  datatype Value =
    | Null
    | Text(text: string)
    | Int(number: int)
    | Real(decimal: real)
    | Bool(flag: bool)
    | Items(items: seq<Value>)
    | Mapping(entries: seq<Entry>)

  datatype Entry = Entry(key: string, value: Value)

  predicate Truthy(v: Value) {
    match v
    case Null => false
    case Text(t) => t != ""
    case Int(n) => n != 0
    case Real(r) => r != 0.0
    case Bool(b) => b
    case Items(s) => s != []
    case Mapping(es) => es != []
  }

  ghost predicate UniqueKeys(es: seq<Entry>) {
    forall i, j :: 0 <= i < j < |es| ==> es[i].key != es[j].key
  }

  function Get(es: seq<Entry>, key: string): Option<Value> {
    if es == [] then None else if es[0].key == key then Some(es[0].value) else Get(es[1..], key)
  }

  /** {**es, key: value} */
  function Put(es: seq<Entry>, key: string, value: Value): seq<Entry> {
    if es == [] then [Entry(key, value)]
    else if es[0].key == key then [Entry(key, value)] + es[1..]
    else [es[0]] + Put(es[1..], key, value)
  }

  function Without(es: seq<Entry>, key: string): seq<Entry> {
    if es == [] then []
    else (if es[0].key == key then [] else [es[0]]) + Without(es[1..], key)
  }

  lemma {:induction false} GetPut(es: seq<Entry>, key: string, value: Value, other: string)
    ensures Get(Put(es, key, value), other) == if other == key then Some(value) else Get(es, other)
  {
    if es == [] {
    } else {
      GetPut(es[1..], key, value, other);
      assert es[0].key == key ==> ([Entry(key, value)] + es[1..])[1..] == es[1..];
      assert es[0].key != key ==> ([es[0]] + Put(es[1..], key, value))[1..] == Put(es[1..], key, value);
    }
  }

  lemma {:induction false} GetWithout(es: seq<Entry>, key: string, other: string)
    ensures Get(Without(es, key), other) == if other == key then None else Get(es, other)
  {
    if es == [] {
    } else {
      GetWithout(es[1..], key, other);
      assert es[0].key != key ==> ([es[0]] + Without(es[1..], key))[1..] == Without(es[1..], key);
      assert es[0].key == key ==> [] + Without(es[1..], key) == Without(es[1..], key);
    }
  }

  lemma {:induction false} WithoutUnique(es: seq<Entry>, key: string)
    requires UniqueKeys(es)
    ensures UniqueKeys(Without(es, key))
    ensures forall e :: e in Without(es, key) <==> e in es && e.key != key
    ensures |Without(es, key)| <= |es|
  {
    if es == [] {
    } else {
      WithoutUnique(es[1..], key);
    }
  }

  // ---------------------------------------------------------------------------------------------
  // The check

  const HF_OVERRIDES := "hf_overrides"
  const ROPE_PARAMETERS := "rope_parameters"
  const ROPE_SCALING := "rope_scaling"
  const MAX_MODEL_LEN := "max_model_len"

  /** What the check knows of the model: its own context length, 0 when unknown, and its rope_theta. */
  datatype Model = Model(native: nat, ropeTheta: Value)

  /** profile_vllm_args.get("hf_overrides") or {} */
  function HfOverrides(args: seq<Entry>): seq<Entry> {
    match Get(args, HF_OVERRIDES)
    case Some(Mapping(es)) => es
    case _ => []
  }

  predicate Sets(hf: seq<Entry>, key: string) {
    Get(hf, key).Some? && Truthy(Get(hf, key).value)
  }

  /** A key set to nothing, or to an empty or zero value, counts as not set. */
  lemma SetsUnlessEmpty(hf: seq<Entry>, key: string, value: Value)
    ensures Sets(Put(hf, key, value), key) <==>
            && value != Null && value != Bool(false) && value != Int(0) && value != Real(0.0)
            && value != Text("") && value != Items([]) && value != Mapping([])
    ensures !Sets(Without(hf, key), key)
  {
    GetPut(hf, key, value, key);
    GetWithout(hf, key, key);
  }

  /** The first of ROPE_KEYS the overrides set. */
  function RopeKey(hf: seq<Entry>): Option<string> {
    if Sets(hf, ROPE_PARAMETERS) then Some(ROPE_PARAMETERS)
    else if Sets(hf, ROPE_SCALING) then Some(ROPE_SCALING)
    else None
  }

  /** How many of ROPE_KEYS the overrides set. */
  function RopeKeysSet(hf: seq<Entry>): nat {
    (if Sets(hf, ROPE_PARAMETERS) then 1 else 0) + (if Sets(hf, ROPE_SCALING) then 1 else 0)
  }

  /** round(x, 2), with ties to the even hundredth. */
  function Round2(x: real): real {
    var hundredths := (x * 100.0).Floor;
    var rest := x * 100.0 - hundredths as real;
    var up := rest > 0.5 || (rest == 0.5 && hundredths % 2 == 1);
    (hundredths + if up then 1 else 0) as real / 100.0
  }

  /** The override that stretches the model's context, with the factor rounded. */
  function Yarn(model: Model, maxModelLen: nat): seq<Entry>
    requires model.native > 0
  {
    [Entry("rope_type", Text("yarn")),
     Entry("factor", Real(Round2(maxModelLen as real / model.native as real))),
     Entry("original_max_position_embeddings", Int(model.native)),
     Entry("rope_theta", model.ropeTheta)]
  }

  function Stretched(model: Model, args: seq<Entry>, maxModelLen: nat): seq<Entry>
    requires model.native > 0
  {
    Put(args, HF_OVERRIDES, Mapping(Put(HfOverrides(args), ROPE_PARAMETERS, Mapping(Yarn(model, maxModelLen)))))
  }

  function Lowered(model: Model, args: seq<Entry>): seq<Entry> {
    Put(args, MAX_MODEL_LEN, Int(model.native))
  }

  /** The override unset, and hf_overrides itself when nothing else is left in it. */
  function CommentedOut(args: seq<Entry>, ropeKey: string): seq<Entry> {
    var left := Without(HfOverrides(args), ropeKey);
    if left == [] then Without(args, HF_OVERRIDES) else Put(args, HF_OVERRIDES, Mapping(left))
  }

  datatype Problem =
    | Suits
    | NotForThisModel(ropeKey: string)
    | TooShort(stretched: seq<Entry>, lowered: Option<seq<Entry>>)

  /** rope_override_problem: what is wrong and what to write instead; a missing length is 0. */
  function RopeProblem(model: Model, args: seq<Entry>, maxModelLen: nat, minContext: int): Problem {
    var hf := HfOverrides(args);
    if model.native == 0 || maxModelLen == 0 then Suits
    else if RopeKey(hf).Some? && model.native >= maxModelLen then NotForThisModel(RopeKey(hf).value)
    else if RopeKey(hf).None? && model.native < maxModelLen then
      TooShort(Stretched(model, args, maxModelLen),
               if model.native >= minContext then Some(Lowered(model, args)) else None)
    else Suits
  }

  // ---------------------------------------------------------------------------------------------
  // The repairs work

  lemma StretchedSetsRope(model: Model, args: seq<Entry>, maxModelLen: nat)
    requires model.native > 0
    ensures RopeKey(HfOverrides(Stretched(model, args, maxModelLen))) == Some(ROPE_PARAMETERS)
  {
    var hf := HfOverrides(args);
    var rope := Mapping(Yarn(model, maxModelLen));
    GetPut(hf, ROPE_PARAMETERS, rope, ROPE_PARAMETERS);
    GetPut(args, HF_OVERRIDES, Mapping(Put(hf, ROPE_PARAMETERS, rope)), HF_OVERRIDES);
  }

  /** Either way out of a context that is too short passes the check at once. */
  lemma StretchingAndLoweringRepair(model: Model, args: seq<Entry>, maxModelLen: nat, minContext: int)
    requires RopeProblem(model, args, maxModelLen, minContext).TooShort?
    ensures var p := RopeProblem(model, args, maxModelLen, minContext);
            && RopeProblem(model, p.stretched, maxModelLen, minContext) == Suits
            && (p.lowered.Some? <==> model.native >= minContext)
            && (p.lowered.Some? ==>
                  && Get(p.lowered.value, MAX_MODEL_LEN) == Some(Int(model.native))
                  && RopeProblem(model, p.lowered.value, model.native, minContext) == Suits)
  {
    StretchedSetsRope(model, args, maxModelLen);
    GetPut(args, MAX_MODEL_LEN, Int(model.native), MAX_MODEL_LEN);
    GetPut(args, MAX_MODEL_LEN, Int(model.native), HF_OVERRIDES);
  }

  lemma CommentingOutUnsets(args: seq<Entry>, ropeKey: string)
    requires Get(args, HF_OVERRIDES).Some?
    ensures HfOverrides(CommentedOut(args, ropeKey)) == Without(HfOverrides(args), ropeKey)
    ensures forall key :: key != HF_OVERRIDES ==> Get(CommentedOut(args, ropeKey), key) == Get(args, key)
  {
    var left := Without(HfOverrides(args), ropeKey);
    GetWithout(args, HF_OVERRIDES, HF_OVERRIDES);
    GetPut(args, HF_OVERRIDES, Mapping(left), HF_OVERRIDES);
    forall key | key != HF_OVERRIDES ensures Get(CommentedOut(args, ropeKey), key) == Get(args, key) {
      GetWithout(args, HF_OVERRIDES, key);
      GetPut(args, HF_OVERRIDES, Mapping(left), key);
    }
  }

  /** The arguments after following the advice to comment out, for as long as the check gives it. */
  function Followed(model: Model, args: seq<Entry>, maxModelLen: nat, minContext: int, rounds: nat): seq<Entry>
    decreases rounds
  {
    match RopeProblem(model, args, maxModelLen, minContext)
    case NotForThisModel(key) =>
      if rounds == 0 then args else Followed(model, CommentedOut(args, key), maxModelLen, minContext, rounds - 1)
    case _ => args
  }

  lemma OneRound(model: Model, args: seq<Entry>, maxModelLen: nat, minContext: int)
    requires RopeProblem(model, args, maxModelLen, minContext).NotForThisModel?
    ensures var key := RopeProblem(model, args, maxModelLen, minContext).ropeKey;
            RopeKeysSet(HfOverrides(CommentedOut(args, key))) == RopeKeysSet(HfOverrides(args)) - 1
  {
    var key := RopeProblem(model, args, maxModelLen, minContext).ropeKey;
    var hf := HfOverrides(args);
    assert Get(args, HF_OVERRIDES).Some?;
    CommentingOutUnsets(args, key);
    GetWithout(hf, key, ROPE_PARAMETERS);
    GetWithout(hf, key, ROPE_SCALING);
  }

  /** Commenting out passes the check after exactly as many rounds as RoPE keys were set. */
  lemma {:induction false} CommentingOutRepairs(model: Model, args: seq<Entry>, maxModelLen: nat, minContext: int)
    requires model.native >= maxModelLen
    ensures var followed := Followed(model, args, maxModelLen, minContext, RopeKeysSet(HfOverrides(args)));
            RopeProblem(model, followed, maxModelLen, minContext) == Suits
    decreases RopeKeysSet(HfOverrides(args))
  {
    var p := RopeProblem(model, args, maxModelLen, minContext);
    if !p.NotForThisModel? {
    } else {
      OneRound(model, args, maxModelLen, minContext);
      CommentingOutRepairs(model, CommentedOut(args, p.ropeKey), maxModelLen, minContext);
    }
  }

  /** The nearest hundredth, and of two as near the even one. */
  lemma Round2IsNearest(x: real) returns (n: int)
    ensures Round2(x) == n as real / 100.0
    ensures -0.5 <= n as real - x * 100.0 <= 0.5
    ensures n as real - x * 100.0 in {-0.5, 0.5} ==> n % 2 == 0
  {
    var hundredths := (x * 100.0).Floor;
    var rest := x * 100.0 - hundredths as real;
    n := if rest > 0.5 || (rest == 0.5 && hundredths % 2 == 1) then hundredths + 1 else hundredths;
  }

  lemma Round2IsClose(x: real)
    ensures -0.005 <= Round2(x) - x <= 0.005
  {
    var n := Round2IsNearest(x);
  }

  lemma Distributed(f: real, x: real, d: real, n: real)
    requires f == x + d
    ensures f * n == x * n + d * n
  {
  }

  lemma Within(d: real, bound: real, n: real, missed: real)
    requires -bound <= d <= bound && n > 0.0 && missed == d * n
    ensures -bound * n <= missed <= bound * n
  {
  }

  lemma Scaled(f: real, x: real, d: real, n: real, length: real, missed: real)
    requires f == x + d && -0.005 <= d <= 0.005 && n > 0.0 && length == x * n && missed == d * n
    ensures -0.005 * n <= f * n - length <= 0.005 * n
  {
    Within(d, 0.005, n, missed);
    Distributed(f, x, d, n);
    assert f * n - length == missed;
  }

  lemma RatioTimes(m: real, n: real, ratio: real)
    requires n > 0.0 && ratio == m / n
    ensures ratio * n == m
  {
  }

  /** The stretched context misses max_model_len by at most half a hundredth of the model's own. */
  lemma StretchedLength(native: nat, maxModelLen: nat)
    requires native > 0
    ensures var length := Round2(maxModelLen as real / native as real) * native as real;
            -0.005 * native as real <= length - maxModelLen as real <= 0.005 * native as real
  {
    var ratio := maxModelLen as real / native as real;
    RatioTimes(maxModelLen as real, native as real, ratio);
    Round2IsClose(ratio);
    var d := Round2(ratio) - ratio;
    Scaled(Round2(ratio), ratio, d, native as real, maxModelLen as real, d * native as real);
  }

  lemma {:induction false} GetUnique(es: seq<Entry>, i: nat)
    requires UniqueKeys(es) && i < |es|
    ensures Get(es, es[i].key) == Some(es[i].value)
  {
    if i == 0 {
    } else {
      GetUnique(es[1..], i - 1);
    }
  }

  lemma YarnHolds(model: Model, maxModelLen: nat)
    requires model.native > 0
    ensures var rope := Yarn(model, maxModelLen);
            && Get(rope, "rope_type") == Some(Text("yarn"))
            && Get(rope, "factor") == Some(Real(Round2(maxModelLen as real / model.native as real)))
            && Get(rope, "original_max_position_embeddings") == Some(Int(model.native))
            && Get(rope, "rope_theta") == Some(model.ropeTheta)
  {
    var rope := Yarn(model, maxModelLen);
    assert |rope[0].key| == 9 && |rope[1].key| == 6 && |rope[2].key| == 32 && |rope[3].key| == 10;
    forall i: nat | i < 4 ensures Get(rope, rope[i].key) == Some(rope[i].value) {
      GetUnique(rope, i);
    }
    assert Get(rope, rope[2].key) == Some(rope[2].value) && Get(rope, rope[3].key) == Some(rope[3].value);
  }

  /**
   The stretched arguments: a yarn override whose factor takes the model's own context to within half
   a hundredth of itself of max_model_len, and every other override and argument as it was.
   */
  lemma StretchedArguments(model: Model, args: seq<Entry>, maxModelLen: nat)
    requires model.native > 0
    ensures var to := Stretched(model, args, maxModelLen);
            var hf, rope := HfOverrides(to), Yarn(model, maxModelLen);
            && Get(hf, "rope_parameters") == Some(Mapping(rope))
            && Get(rope, "factor").Some? && Get(rope, "factor").value.Real?
            && -0.005 * model.native as real
               <= Get(rope, "factor").value.decimal * model.native as real - maxModelLen as real
               <= 0.005 * model.native as real
            && (forall key :: key != ROPE_PARAMETERS ==> Get(hf, key) == Get(HfOverrides(args), key))
            && (forall key :: key != "hf_overrides" ==> Get(to, key) == Get(args, key))
  {
    var hf, rope := HfOverrides(args), Mapping(Yarn(model, maxModelLen));
    var to := Stretched(model, args, maxModelLen);
    YarnHolds(model, maxModelLen);
    StretchedLength(model.native, maxModelLen);
    GetPut(args, HF_OVERRIDES, Mapping(Put(hf, ROPE_PARAMETERS, rope)), HF_OVERRIDES);
    GetPut(hf, ROPE_PARAMETERS, rope, ROPE_PARAMETERS);
    forall key | key != ROPE_PARAMETERS ensures Get(HfOverrides(to), key) == Get(hf, key) {
      GetPut(hf, ROPE_PARAMETERS, rope, key);
    }
    forall key | key != HF_OVERRIDES ensures Get(to, key) == Get(args, key) {
      GetPut(args, HF_OVERRIDES, Mapping(Put(hf, ROPE_PARAMETERS, rope)), key);
    }
  }

  /** Lowering sets max_model_len to the model's own context and leaves every other argument. */
  lemma LoweredArguments(model: Model, args: seq<Entry>, key: string)
    ensures Get(Lowered(model, args), key) == if key == "max_model_len" then Some(Int(model.native)) else Get(args, key)
  {
    GetPut(args, MAX_MODEL_LEN, Int(model.native), key);
  }

  /** With both lengths known, an override suits exactly the models whose own context falls short. */
  lemma SuitsExactlyWhereNeeded(model: Model, args: seq<Entry>, maxModelLen: nat, minContext: int)
    ensures RopeProblem(model, args, maxModelLen, minContext) == Suits <==>
            model.native == 0 || maxModelLen == 0
            || ((exists key :: key in {"rope_parameters", "rope_scaling"} && Sets(HfOverrides(args), key))
                <==> model.native < maxModelLen)
  {
    assert ROPE_PARAMETERS in {ROPE_PARAMETERS, ROPE_SCALING} && ROPE_SCALING in {ROPE_PARAMETERS, ROPE_SCALING};
  }

  /** The override named as wrong is one that is set, by its newer name if both are. */
  lemma NamesTheOverride(model: Model, args: seq<Entry>, maxModelLen: nat, minContext: int)
    requires RopeProblem(model, args, maxModelLen, minContext).NotForThisModel?
    ensures var key := RopeProblem(model, args, maxModelLen, minContext).ropeKey;
            && 0 < maxModelLen <= model.native && Sets(HfOverrides(args), key)
            && key == if Sets(HfOverrides(args), "rope_parameters") then "rope_parameters" else "rope_scaling"
  {
  }

  // ---------------------------------------------------------------------------------------------
  // The lines

  /** A line of the advice: commented out or not, its indentation, and its value unless that follows as a block. */
  datatype Line = Line(commented: bool, indent: nat, key: string, inline: Option<Value>)

  predicate HoldsMapping(es: seq<Entry>) {
    exists e :: e in es && e.value.Mapping?
  }

  predicate AsBlock(v: Value) {
    v.Mapping? && HoldsMapping(v.entries)
  }

  /** _yaml: innermost mappings on one line, others as a key and an indented block. */
  function Yaml(es: seq<Entry>, indent: nat): seq<Line>
    decreases es
  {
    if es == [] then []
    else YamlEntry(es[0], indent) + Yaml(es[1..], indent)
  }

  function YamlEntry(e: Entry, indent: nat): seq<Line>
    decreases e
  {
    if AsBlock(e.value) then [Line(false, indent, e.key, None)] + Yaml(e.value.entries, indent + 2)
    else [Line(false, indent, e.key, Some(e.value))]
  }

  lemma {:induction false} YamlConcat(a: seq<Entry>, b: seq<Entry>, indent: nat)
    ensures Yaml(a + b, indent) == Yaml(a, indent) + Yaml(b, indent)
    decreases |a|
  {
    if a == [] {
      assert a + b == b;
    } else {
      assert (a + b)[1..] == a[1..] + b;
      YamlConcat(a[1..], b, indent);
    }
  }

  lemma YamlSnoc(es: seq<Entry>, i: nat, indent: nat)
    requires i < |es|
    ensures Yaml(es[..i + 1], indent) == Yaml(es[..i], indent) + YamlEntry(es[i], indent)
  {
    assert es[..i + 1] == es[..i] + [es[i]] && [es[i]][1..] == [];
    YamlConcat(es[..i], [es[i]], indent);
    assert Yaml([es[i]], indent) == YamlEntry(es[i], indent) + Yaml([], indent);
  }

  /** An entry takes one line exactly when it holds no mapping of mappings. */
  lemma OneLineIffInnermost(e: Entry, indent: nat)
    ensures |YamlEntry(e, indent)| == 1 <==>
            !(e.value.Mapping? && exists inner :: inner in e.value.entries && inner.value.Mapping?)
  {
    if AsBlock(e.value) {
      assert Yaml(e.value.entries, indent + 2) != [];
    }
  }

  /** The printing loop. */
  method PrintYaml(es: seq<Entry>, indent: nat) returns (lines: seq<Line>)
    ensures lines == Yaml(es, indent)
    decreases es
  {
    lines := [];
    assert es[..0] == [];
    for i := 0 to |es|
      invariant lines == Yaml(es[..i], indent)
    {
      YamlSnoc(es, i, indent);
      if es[i].value.Mapping? && exists inner :: inner in es[i].value.entries && inner.value.Mapping? {
        var nested := PrintYaml(es[i].value.entries, indent + 2);
        lines := lines + ([Line(false, indent, es[i].key, None)] + nested);
      } else {
        lines := lines + [Line(false, indent, es[i].key, Some(es[i].value))];
      }
    }
    assert es[..|es|] == es;
  }

  /** How many lines at the start are indented deeper than this. */
  function Deeper(lines: seq<Line>, indent: nat): (n: nat)
    ensures n <= |lines|
  {
    if lines == [] || lines[0].indent <= indent then 0 else 1 + Deeper(lines[1..], indent)
  }

  /** A YAML reader for such lines: a key without a value takes the deeper lines below it as its mapping. */
  function Read(lines: seq<Line>): seq<Entry>
    decreases |lines|
  {
    if lines == [] then []
    else
      var n := Deeper(lines[1..], lines[0].indent);
      var value := match lines[0].inline
        case Some(v) => v
        case None => if n == 0 then Null else Mapping(Read(lines[1..1 + n]));
      [Entry(lines[0].key, value)] + Read(lines[1 + n..])
  }

  /** Lines that can follow a block at this indentation. */
  ghost predicate Outside(rest: seq<Line>, indent: nat) {
    rest != [] ==> rest[0].indent <= indent
  }

  ghost predicate AllDeeper(lines: seq<Line>, indent: nat) {
    forall l :: l in lines ==> l.indent > indent
  }

  lemma {:induction false} DeeperIs(nested: seq<Line>, rest: seq<Line>, indent: nat)
    requires AllDeeper(nested, indent) && Outside(rest, indent)
    ensures Deeper(nested + rest, indent) == |nested|
  {
    if nested == [] {
      assert nested + rest == rest;
    } else {
      assert nested[0] in nested && (nested + rest)[1..] == nested[1..] + rest;
      DeeperIs(nested[1..], rest, indent);
    }
  }

  lemma ReadInline(l: Line, rest: seq<Line>)
    requires l.inline.Some? && Outside(rest, l.indent)
    ensures Read([l] + rest) == [Entry(l.key, l.inline.value)] + Read(rest)
  {
  }

  lemma ReadBlock(l: Line, nested: seq<Line>, rest: seq<Line>)
    requires l.inline.None? && nested != [] && AllDeeper(nested, l.indent) && Outside(rest, l.indent)
    ensures Read([l] + nested + rest) == [Entry(l.key, Mapping(Read(nested)))] + Read(rest)
  {
    var lines := [l] + nested + rest;
    assert lines[1..] == nested + rest;
    DeeperIs(nested, rest, l.indent);
    assert lines[1..1 + |nested|] == nested && lines[1 + |nested|..] == rest;
  }

  /** Where printed lines stand. */
  lemma {:induction false} YamlIndent(es: seq<Entry>, indent: nat)
    ensures forall l :: l in Yaml(es, indent) ==> l.indent >= indent && !l.commented
    ensures es != [] ==> Yaml(es, indent) != [] && Yaml(es, indent)[0].indent == indent
    decreases es
  {
    if es == [] {
    } else {
      if AsBlock(es[0].value) {
        YamlIndent(es[0].value.entries, indent + 2);
      }
      YamlIndent(es[1..], indent);
    }
  }

  lemma YamlCons(es: seq<Entry>, indent: nat, rest: seq<Line>)
    requires es != []
    ensures Yaml(es, indent) + rest == YamlEntry(es[0], indent) + (Yaml(es[1..], indent) + rest)
  {
  }

  lemma {:induction false} ReadYaml(es: seq<Entry>, indent: nat, rest: seq<Line>)
    requires Outside(rest, indent)
    ensures Read(Yaml(es, indent) + rest) == es + Read(rest)
    decreases es, 1
  {
    if es == [] {
      assert [] + rest == rest && es + Read(rest) == Read(rest);
    } else {
      YamlIndent(es[1..], indent);
      YamlCons(es, indent, rest);
      ReadYamlEntry(es[0], indent, Yaml(es[1..], indent) + rest);
      ReadYaml(es[1..], indent, rest);
      ConsConcat(es, Read(rest));
    }
  }

  lemma {:induction false} ReadYamlEntry(e: Entry, indent: nat, rest: seq<Line>)
    requires Outside(rest, indent)
    ensures Read(YamlEntry(e, indent) + rest) == [e] + Read(rest)
    decreases e, 0
  {
    if AsBlock(e.value) {
      var nested := Yaml(e.value.entries, indent + 2);
      YamlIndent(e.value.entries, indent + 2);
      assert nested + [] == nested && e.value.entries + Read([]) == e.value.entries;
      ReadYaml(e.value.entries, indent + 2, []);
      ReadBlock(Line(false, indent, e.key, None), nested, rest);
    } else {
      ReadInline(Line(false, indent, e.key, Some(e.value)), rest);
    }
  }

  /** A profile section as the advice prints it. */
  function Section(args: seq<Entry>): seq<Line> {
    [Line(false, 0, "vllm_args", None)] + Yaml(args, 2)
  }

  /** The section printed for a repair reads back as the repaired arguments. */
  lemma SectionReadsBack(args: seq<Entry>)
    requires args != []
    ensures Read(Section(args)) == [Entry("vllm_args", Mapping(args))]
  {
    var nested := Yaml(args, 2);
    YamlIndent(args, 2);
    ReadYaml(args, 2, []);
    assert nested + [] == nested && args + Read([]) == args;
    ReadBlock(Line(false, 0, "vllm_args", None), nested, []);
    assert Section(args) == [Line(false, 0, "vllm_args", None)] + nested + [];
  }

  // ---------------------------------------------------------------------------------------------
  // Commenting out

  function Commented(lines: seq<Line>): (r: seq<Line>)
    ensures forall l :: l in r ==> l.commented
  {
    seq(|lines|, i requires 0 <= i < |lines| => lines[i].(commented := true))
  }

  function Uncommented(lines: seq<Line>): seq<Line> {
    if lines == [] then []
    else Uncommented(lines[..|lines| - 1]) + if Last(lines).commented then [] else [Last(lines)]
  }

  lemma {:induction false} UncommentedConcat(a: seq<Line>, b: seq<Line>)
    ensures Uncommented(a + b) == Uncommented(a) + Uncommented(b)
  {
    if b == [] {
      assert a + b == a;
    } else {
      var front := b[..|b| - 1];
      UncommentedConcat(a, front);
      assert (a + b)[..|a + b| - 1] == a + front;
    }
  }

  lemma {:induction false} UncommentedKeeps(lines: seq<Line>)
    ensures (forall l :: l in lines ==> !l.commented) ==> Uncommented(lines) == lines
    ensures (forall l :: l in lines ==> l.commented) ==> Uncommented(lines) == []
  {
    if lines == [] {
    } else {
      UncommentedKeeps(lines[..|lines| - 1]);
      assert lines == lines[..|lines| - 1] + [Last(lines)];
    }
  }

  /** The lines with their comment signs taken away. */
  function Bare(lines: seq<Line>): seq<Line> {
    seq(|lines|, i requires 0 <= i < |lines| => lines[i].(commented := false))
  }

  lemma BareConcat(a: seq<Line>, b: seq<Line>)
    ensures Bare(a + b) == Bare(a) + Bare(b)
  {
  }

  lemma BareYaml(es: seq<Entry>, indent: nat)
    ensures Bare(Yaml(es, indent)) == Yaml(es, indent) == Bare(Commented(Yaml(es, indent)))
  {
    YamlIndent(es, indent);
  }

  lemma {:induction false} WithoutConcat(a: seq<Entry>, b: seq<Entry>, key: string)
    ensures Without(a + b, key) == Without(a, key) + Without(b, key)
  {
    if a == [] {
      assert a + b == b;
    } else {
      assert (a + b)[1..] == a[1..] + b;
      WithoutConcat(a[1..], b, key);
    }
  }

  lemma WithoutSnoc(es: seq<Entry>, i: nat, key: string)
    requires i < |es|
    ensures Without(es[..i + 1], key) == Without(es[..i], key) + if es[i].key == key then [] else [es[i]]
  {
    assert es[..i + 1] == es[..i] + [es[i]];
    WithoutConcat(es[..i], [es[i]], key);
  }

  /** A sub-entry of hf_overrides: commented out, or printed and kept. */
  lemma SubEntryKept(hf: seq<Entry>, i: nat, ropeKey: string)
    requires i < |hf|
    ensures var sub := Yaml([hf[i]], 4);
            Yaml(Without(hf[..i + 1], ropeKey), 4) ==
            Yaml(Without(hf[..i], ropeKey), 4) + Uncommented(if hf[i].key == ropeKey then Commented(sub) else sub)
  {
    var before, sub := Without(hf[..i], ropeKey), Yaml([hf[i]], 4);
    YamlIndent([hf[i]], 4);
    UncommentedKeeps(Commented(sub));
    UncommentedKeeps(sub);
    WithoutSnoc(hf, i, ropeKey);
    YamlConcat(before, if hf[i].key == ropeKey then [] else [hf[i]], 4);
  }

  /** A sub-entry of hf_overrides as printed: commented out if it is the RoPE key. */
  function PrintedSub(e: Entry, ropeKey: string): seq<Line> {
    if e.key == ropeKey then Commented(Yaml([e], 4)) else Yaml([e], 4)
  }

  function OverridesHead(hf: seq<Entry>, ropeKey: string): seq<Line> {
    [Line(Without(hf, ropeKey) == [], 2, HF_OVERRIDES, None)]
  }

  ghost predicate OverridesPrinted(lines: seq<Line>, hf: seq<Entry>, ropeKey: string, i: nat)
    requires i <= |hf|
  {
    && Uncommented(lines) == Uncommented(OverridesHead(hf, ropeKey)) + Yaml(Without(hf[..i], ropeKey), 4)
    && Bare(lines) == [Line(false, 2, HF_OVERRIDES, None)] + Yaml(hf[..i], 4)
  }

  lemma OverridesStart(hf: seq<Entry>, ropeKey: string)
    ensures OverridesPrinted(OverridesHead(hf, ropeKey), hf, ropeKey, 0)
  {
  }

  lemma OverridesStepBare(lines: seq<Line>, hf: seq<Entry>, ropeKey: string, i: nat)
    requires i < |hf| && Bare(lines) == [Line(false, 2, HF_OVERRIDES, None)] + Yaml(hf[..i], 4)
    ensures Bare(lines + PrintedSub(hf[i], ropeKey)) == [Line(false, 2, HF_OVERRIDES, None)] + Yaml(hf[..i + 1], 4)
  {
    BareConcat(lines, PrintedSub(hf[i], ropeKey));
    BareYaml([hf[i]], 4);
    YamlConcat(hf[..i], [hf[i]], 4);
    assert hf[..i] + [hf[i]] == hf[..i + 1];
    ConcatAssociative([Line(false, 2, HF_OVERRIDES, None)], Yaml(hf[..i], 4), Yaml([hf[i]], 4));
  }

  lemma OverridesStep(lines: seq<Line>, hf: seq<Entry>, ropeKey: string, i: nat)
    requires i < |hf| && OverridesPrinted(lines, hf, ropeKey, i)
    ensures OverridesPrinted(lines + PrintedSub(hf[i], ropeKey), hf, ropeKey, i + 1)
  {
    OverridesStepBare(lines, hf, ropeKey, i);
    UncommentedConcat(lines, PrintedSub(hf[i], ropeKey));
    SubEntryKept(hf, i, ropeKey);
    ConcatAssociative(Uncommented(OverridesHead(hf, ropeKey)), Yaml(Without(hf[..i], ropeKey), 4),
                      Uncommented(PrintedSub(hf[i], ropeKey)));
  }

  lemma OverridesDone(lines: seq<Line>, hf: seq<Entry>, ropeKey: string)
    requires OverridesPrinted(lines, hf, ropeKey, |hf|)
    ensures Uncommented(lines) == KeptOverrides(Without(hf, ropeKey))
    ensures hf != [] ==> Bare(lines) == KeptOverrides(hf)
  {
    assert hf[..|hf|] == hf;
    UncommentedKeeps(OverridesHead(hf, ropeKey));
  }

  /** What of hf_overrides stays uncommented. */
  ghost function KeptOverrides(left: seq<Entry>): seq<Line> {
    if left == [] then [] else [Line(false, 2, HF_OVERRIDES, None)] + Yaml(left, 4)
  }

  /** The lines of hf_overrides, those of the RoPE key commented out, and the key itself if nothing else is left. */
  method CommentedOverrides(hf: seq<Entry>, ropeKey: string) returns (lines: seq<Line>)
    ensures Uncommented(lines) == KeptOverrides(Without(hf, ropeKey))
    ensures hf != [] ==> Bare(lines) == KeptOverrides(hf)
  {
    lines := OverridesHead(hf, ropeKey);
    OverridesStart(hf, ropeKey);
    for i := 0 to |hf|
      invariant OverridesPrinted(lines, hf, ropeKey, i)
    {
      OverridesStep(lines, hf, ropeKey, i);
      lines := lines + PrintedSub(hf[i], ropeKey);
    }
    OverridesDone(lines, hf, ropeKey);
  }

  /** The lines a block mapping would be read from, with hf_overrides always printed as a block. */
  ghost function Kept(args: seq<Entry>, left: seq<Entry>): seq<Line> {
    if args == [] then []
    else
      (if args[0].key != HF_OVERRIDES then Yaml([args[0]], 2)
       else KeptOverrides(left)) + Kept(args[1..], left)
  }

  /** The arguments with hf_overrides holding what is left, or gone. */
  ghost function WithLeft(args: seq<Entry>, left: seq<Entry>): seq<Entry> {
    if args == [] then []
    else
      (if args[0].key != HF_OVERRIDES then [args[0]]
       else if left == [] then []
       else [Entry(HF_OVERRIDES, Mapping(left))]) + WithLeft(args[1..], left)
  }

  lemma {:induction false} KeptConcat(a: seq<Entry>, b: seq<Entry>, left: seq<Entry>)
    ensures Kept(a + b, left) == Kept(a, left) + Kept(b, left)
  {
    if a == [] {
      assert a + b == b;
    } else {
      assert (a + b)[1..] == a[1..] + b;
      KeptConcat(a[1..], b, left);
    }
  }

  lemma {:induction false} KeptIndent(args: seq<Entry>, left: seq<Entry>)
    ensures forall l :: l in Kept(args, left) ==> l.indent >= 2
    ensures Kept(args, left) != [] ==> Kept(args, left)[0].indent == 2
    ensures WithLeft(args, left) != [] ==> Kept(args, left) != []
  {
    if args == [] {
    } else {
      YamlIndent([args[0]], 2);
      YamlIndent(left, 4);
      KeptIndent(args[1..], left);
    }
  }

  lemma {:induction false} ReadKept(args: seq<Entry>, left: seq<Entry>)
    ensures Read(Kept(args, left)) == WithLeft(args, left)
  {
    if args == [] {
    } else {
      var rest := Kept(args[1..], left);
      KeptIndent(args[1..], left);
      ReadKept(args[1..], left);
      if args[0].key != HF_OVERRIDES {
        ReadYaml([args[0]], 2, rest);
      } else if left == [] {
        assert [] + rest == rest;
      } else {
        var nested := Yaml(left, 4);
        YamlIndent(left, 4);
        ReadYaml(left, 4, []);
        assert nested + [] == nested && left + Read([]) == left;
        ReadBlock(Line(false, 2, HF_OVERRIDES, None), nested, rest);
      }
    }
  }

  lemma {:induction false} WithLeftIsCommentedOut(args: seq<Entry>, left: seq<Entry>)
    requires UniqueKeys(args)
    ensures Get(args, HF_OVERRIDES).Some? ==>
              WithLeft(args, left) ==
              if left == [] then Without(args, HF_OVERRIDES) else Put(args, HF_OVERRIDES, Mapping(left))
    ensures Get(args, HF_OVERRIDES).None? ==> WithLeft(args, left) == args == Without(args, HF_OVERRIDES)
  {
    if args == [] {
    } else {
      WithLeftIsCommentedOut(args[1..], left);
      if args[0].key == HF_OVERRIDES {
        AbsentAfterFirst(args, HF_OVERRIDES);
      }
    }
  }

  lemma {:induction false} GetIsIn(es: seq<Entry>, key: string)
    ensures Get(es, key).Some? <==> exists e :: e in es && e.key == key
  {
    if es == [] {
    } else {
      GetIsIn(es[1..], key);
      assert es[0] in es;
    }
  }

  lemma AbsentAfterFirst(es: seq<Entry>, key: string)
    requires UniqueKeys(es) && es != [] && es[0].key == key
    ensures Get(es[1..], key).None?
  {
    GetIsIn(es[1..], key);
  }

  lemma ArgsLeftIff(args: seq<Entry>, left: seq<Entry>)
    requires UniqueKeys(args) && Get(args, HF_OVERRIDES).Some?
    ensures WithLeft(args, left) != [] <==> |args| > 1 || left != []
  {
  }

  lemma KeptSnoc(args: seq<Entry>, i: nat, left: seq<Entry>)
    requires i < |args|
    ensures Kept(args[..i + 1], left) == Kept(args[..i], left) + Kept([args[i]], left)
  {
    assert args[..i + 1] == args[..i] + [args[i]];
    KeptConcat(args[..i], [args[i]], left);
  }

  lemma KeptOne(e: Entry, left: seq<Entry>)
    ensures Kept([e], left) == if e.key != HF_OVERRIDES then Yaml([e], 2) else KeptOverrides(left)
    ensures Uncommented(Yaml([e], 2)) == Yaml([e], 2)
  {
    assert [e][1..] == [] && Kept([], left) == [];
    YamlIndent([e], 2);
    UncommentedKeeps(Yaml([e], 2));
  }

  function SectionHead(argsLeft: bool): seq<Line> {
    [Line(!argsLeft, 0, "vllm_args", None)]
  }

  ghost predicate SectionPrinted(lines: seq<Line>, args: seq<Entry>, left: seq<Entry>, i: nat)
    requires i <= |args|
  {
    Uncommented(lines) == Uncommented(SectionHead(|args| > 1 || left != [])) + Kept(args[..i], left)
  }

  /** Without the comment signs the lines are those of all arguments. */
  ghost predicate SectionBare(lines: seq<Line>, args: seq<Entry>, hf: seq<Entry>, i: nat)
    requires i <= |args|
  {
    Bare(lines) == [Line(false, 0, "vllm_args", None)] + Kept(args[..i], hf)
  }

  lemma SectionStepBare(lines: seq<Line>, args: seq<Entry>, hf: seq<Entry>, i: nat, printed: seq<Line>)
    requires i < |args| && SectionBare(lines, args, hf, i)
    requires if args[i].key != HF_OVERRIDES then printed == Yaml([args[i]], 2)
             else Bare(printed) == KeptOverrides(hf)
    ensures SectionBare(lines + printed, args, hf, i + 1)
  {
    KeptOne(args[i], hf);
    BareConcat(lines, printed);
    BareYaml([args[i]], 2);
    KeptSnoc(args, i, hf);
    ConcatAssociative([Line(false, 0, "vllm_args", None)], Kept(args[..i], hf), Bare(printed));
  }

  lemma BareReadsBack(lines: seq<Line>, args: seq<Entry>)
    requires UniqueKeys(args) && Get(args, HF_OVERRIDES) == Some(Mapping(HfOverrides(args))) && HfOverrides(args) != []
    requires SectionBare(lines, args, HfOverrides(args), |args|)
    ensures Read(Bare(lines)) == [Entry("vllm_args", Mapping(args))]
  {
    assert args[..|args|] == args;
    ReadSection(args, HfOverrides(args));
    WithLeftIsCommentedOut(args, HfOverrides(args));
    PutSame(args, HF_OVERRIDES, Mapping(HfOverrides(args)));
  }

  lemma {:induction false} PutSame(es: seq<Entry>, key: string, value: Value)
    requires Get(es, key) == Some(value)
    ensures Put(es, key, value) == es
  {
    if es[0].key != key {
      PutSame(es[1..], key, value);
    }
  }

  lemma SectionStart(args: seq<Entry>, left: seq<Entry>)
    ensures SectionPrinted(SectionHead(|args| > 1 || left != []), args, left, 0)
  {
  }

  lemma SectionStep(lines: seq<Line>, args: seq<Entry>, left: seq<Entry>, i: nat, printed: seq<Line>)
    requires i < |args| && SectionPrinted(lines, args, left, i)
    requires if args[i].key != HF_OVERRIDES then printed == Yaml([args[i]], 2)
             else Uncommented(printed) == KeptOverrides(left)
    ensures SectionPrinted(lines + printed, args, left, i + 1)
  {
    KeptOne(args[i], left);
    UncommentedConcat(lines, printed);
    KeptSnoc(args, i, left);
    ConcatAssociative(Uncommented(SectionHead(|args| > 1 || left != [])), Kept(args[..i], left), Uncommented(printed));
  }

  lemma SectionDone(lines: seq<Line>, args: seq<Entry>, ropeKey: string)
    requires UniqueKeys(args) && Get(args, HF_OVERRIDES).Some?
    requires SectionPrinted(lines, args, Without(HfOverrides(args), ropeKey), |args|)
    ensures Read(Uncommented(lines)) ==
            if CommentedOut(args, ropeKey) == [] then [] else [Entry("vllm_args", Mapping(CommentedOut(args, ropeKey)))]
  {
    var left := Without(HfOverrides(args), ropeKey);
    assert args[..|args|] == args;
    UncommentedKeeps(SectionHead(|args| > 1 || left != []));
    ReadSection(args, left);
    WithLeftIsCommentedOut(args, left);
  }

  lemma ReadSection(args: seq<Entry>, left: seq<Entry>)
    requires UniqueKeys(args) && Get(args, HF_OVERRIDES).Some?
    ensures var argsLeft := |args| > 1 || left != [];
            Read((if argsLeft then [Line(false, 0, "vllm_args", None)] else []) + Kept(args, left)) ==
            if argsLeft then [Entry("vllm_args", Mapping(WithLeft(args, left)))] else []
    ensures |args| > 1 || left != [] <==> WithLeft(args, left) != []
  {
    var head, nested := Line(false, 0, "vllm_args", None), Kept(args, left);
    ArgsLeftIff(args, left);
    KeptIndent(args, left);
    ReadKept(args, left);
    if |args| > 1 || left != [] {
      ReadBlock(head, nested, []);
      assert [head] + nested + [] == [head] + nested;
      assert [Entry("vllm_args", Mapping(Read(nested)))] + Read([]) == [Entry("vllm_args", Mapping(Read(nested)))];
    } else {
      assert args[1..] == [];
      assert [] + nested == nested;
    }
  }

  /**
   _commented_out: what is left uncommented reads back as the arguments without the RoPE key, and as
   nothing at all when the override was all there was. Nothing is lost: without the comment signs the
   lines read back as all the arguments.
   */
  method CommentedSection(args: seq<Entry>, ropeKey: string) returns (lines: seq<Line>)
    requires UniqueKeys(args) && Get(args, HF_OVERRIDES).Some? && Get(args, HF_OVERRIDES).value.Mapping?
    ensures Read(Uncommented(lines)) ==
            if CommentedOut(args, ropeKey) == [] then [] else [Entry("vllm_args", Mapping(CommentedOut(args, ropeKey)))]
    ensures HfOverrides(args) != [] ==> Read(Bare(lines)) == [Entry("vllm_args", Mapping(args))]
  {
    var hf := HfOverrides(args);
    var left := Without(hf, ropeKey);
    lines := SectionHead(|args| > 1 || left != []);
    SectionStart(args, left);
    for i := 0 to |args|
      invariant SectionPrinted(lines, args, left, i) && (hf != [] ==> SectionBare(lines, args, hf, i))
    {
      var printed := Yaml([args[i]], 2);
      if args[i].key == HF_OVERRIDES {
        printed := CommentedOverrides(hf, ropeKey);
      }
      SectionStep(lines, args, left, i, printed);
      if hf != [] {
        SectionStepBare(lines, args, hf, i, printed);
      }
      lines := lines + printed;
    }
    SectionDone(lines, args, ropeKey);
    if hf != [] {
      BareReadsBack(lines, args);
    }
  }
}
