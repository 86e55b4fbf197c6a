/**
 Which declaration of a variable EnvironmentCheck selects when several apply: the first that a use
 reads, or the first required one, where a use reads the directory's own declarations before those of
 its parents, the file before the calls, and what always applies before what is scoped.
 */
module EnvPrecedence {
  import opened Common
  import opened Sorting
  import opened EnvVars

  /** Where a declaration stands: at a place in the file, or in a declare() call. */
  datatype Source = InFile(above: Directory, index: nat) | InCall(call: nat, index: nat)

  /** A use, by its place among the calls, and a declaration it reads. */
  datatype Reading = Reading(use: nat, source: Source)

  predicate Present(cfg: Config, ops: seq<Op>, s: Source) {
    match s
    case InFile(above, i) => above in cfg.fromFile && i < |cfg.fromFile[above]|
    case InCall(k, i) => k < |ops| && ops[k].Declare? && i < |ops[k].entries|
  }

  function EntryOf(cfg: Config, ops: seq<Op>, s: Source): Entry
    requires Present(cfg, ops, s)
  {
    match s
    case InFile(above, i) => cfg.fromFile[above][i]
    case InCall(k, i) => ops[k].entries[i]
  }

  /** The declaration is for this directory: by the file for it or a parent, or by a call for just it. */
  predicate StandsFor(cfg: Config, ops: seq<Op>, directory: Directory, s: Source) {
    Present(cfg, ops, s) &&
    match s
    case InFile(above, _) => above <= directory
    case InCall(k, _) => cfg.resolve(ops[k].directory) == directory
  }

  /** Nearer directories come first, then the calls, and each in the order written. */
  predicate Sooner(a: Source, b: Source) {
    match a
    case InFile(x, i) => b.InCall? || |x| > |b.above| || (x == b.above && i < b.index)
    case InCall(k, i) => b.InCall? && (k < b.call || (k == b.call && i < b.index))
  }

  predicate IsScoped(cfg: Config, ops: seq<Op>, s: Source) {
    Present(cfg, ops, s) && EntryOf(cfg, ops, s).Scoped?
  }

  /** The use is of a directory the declaration is for and, where it is scoped, of one of its names. */
  predicate Reads(cfg: Config, ops: seq<Op>, r: Reading) {
    && r.use < |ops| && ops[r.use].Use?
    && StandsFor(cfg, ops, cfg.resolve(ops[r.use].directory), r.source)
    && Readable(EntryOf(cfg, ops, r.source), ops[r.use].names)
  }

  /** Earlier uses first; in one use what always applies before what is scoped. */
  predicate ReadBefore(cfg: Config, ops: seq<Op>, q: Reading, r: Reading) {
    || q.use < r.use
    || (&& q.use == r.use
        && if IsScoped(cfg, ops, q.source) == IsScoped(cfg, ops, r.source) then Sooner(q.source, r.source)
           else IsScoped(cfg, ops, r.source))
  }

  function VariableOf(cfg: Config, ops: seq<Op>, r: Reading): Variable
    requires Present(cfg, ops, r.source)
  {
    EntryOf(cfg, ops, r.source).variable
  }

  /** No reading of the same name beats this one: it is the first, or the first required one. */
  ghost predicate CountsFor(cfg: Config, ops: seq<Op>, r: Reading)
    requires Reads(cfg, ops, r)
  {
    var s := VariableOf(cfg, ops, r);
    forall q :: Reads(cfg, ops, q) && VariableOf(cfg, ops, q).name == s.name ==>
      && (VariableOf(cfg, ops, q).required ==> s.required)
      && (ReadBefore(cfg, ops, q, r) ==> s.required && !VariableOf(cfg, ops, q).required)
  }

  // ---------------------------------------------------------------------------------------------
  // The declarations of a directory, in order

  /** These sources, in order, are where the entries stand. */
  ghost predicate Lists(cfg: Config, ops: seq<Op>, sources: seq<Source>, entries: seq<Entry>) {
    && |sources| == |entries|
    && (forall i :: 0 <= i < |sources| ==>
          Present(cfg, ops, sources[i]) && EntryOf(cfg, ops, sources[i]) == entries[i])
    && (forall i, j :: 0 <= i < j < |sources| ==> Sooner(sources[i], sources[j]))
  }

  lemma ListsBoth(cfg: Config, ops: seq<Op>, s: seq<Source>, e: seq<Entry>, t: seq<Source>, f: seq<Entry>)
    requires Lists(cfg, ops, s, e) && Lists(cfg, ops, t, f)
    requires forall a, b :: a in s && b in t ==> Sooner(a, b)
    ensures Lists(cfg, ops, s + t, e + f)
  {
    forall i, j | 0 <= i < j < |s + t| ensures Sooner((s + t)[i], (s + t)[j]) {
      if i < |s| <= j {
        assert s[i] in s && t[j - |s|] in t;
      }
    }
  }

  function FileSources(fromFile: map<Directory, seq<Entry>>, directory: Directory): seq<Source> {
    var n := |Get(fromFile, directory)|;
    seq(n, i requires 0 <= i < n => InFile(directory, i)) +
    if directory == [] then [] else FileSources(fromFile, directory[..|directory| - 1])
  }

  lemma {:induction false} FileSourcesSpec(cfg: Config, ops: seq<Op>, directory: Directory)
    ensures Lists(cfg, ops, FileSources(cfg.fromFile, directory), Inherited(cfg.fromFile, directory))
    ensures forall s :: s in FileSources(cfg.fromFile, directory) <==> s.InFile? && StandsFor(cfg, ops, directory, s)
  {
    var n := |Get(cfg.fromFile, directory)|;
    var own := seq(n, i requires 0 <= i < n => InFile(directory, i));
    assert Lists(cfg, ops, own, Get(cfg.fromFile, directory));
    forall s ensures s in own <==> s.InFile? && s.above == directory && Present(cfg, ops, s) {
      if s.InFile? && s.above == directory && Present(cfg, ops, s) {
        assert own[s.index] == s;
      }
    }
    if directory == [] {
      assert own + [] == own && Get(cfg.fromFile, directory) + [] == Get(cfg.fromFile, directory);
    } else {
      var parent := directory[..|directory| - 1];
      FileSourcesSpec(cfg, ops, parent);
      ListsBoth(cfg, ops, own, Get(cfg.fromFile, directory), FileSources(cfg.fromFile, parent),
                Inherited(cfg.fromFile, parent));
      assert forall s: Source :: s.InFile? ==>
               (s.above <= directory <==> s.above == directory || s.above <= parent);
    }
  }

  function CallSources(cfg: Config, ops: seq<Op>, n: nat, directory: Directory): seq<Source>
    requires n <= |ops|
  {
    if n == 0 then []
    else
      CallSources(cfg, ops, n - 1, directory) +
      var m := |DeclaredHere(cfg, ops[n - 1], directory)|;
      seq(m, i requires 0 <= i < m => InCall(n - 1, i))
  }

  lemma {:induction false} CallSourcesSpec(cfg: Config, ops: seq<Op>, n: nat, directory: Directory)
    requires n <= |ops|
    ensures Lists(cfg, ops, CallSources(cfg, ops, n, directory), Get(Declared(cfg, ops[..n]), directory))
    ensures forall s :: s in CallSources(cfg, ops, n, directory) <==>
                        s.InCall? && s.call < n && StandsFor(cfg, ops, directory, s)
  {
    if n == 0 {
    } else {
      CallSourcesSpec(cfg, ops, n - 1, directory);
      DeclaredOneMore(cfg, ops, n, directory);
      var here := DeclaredHere(cfg, ops[n - 1], directory);
      var more := seq(|here|, i requires 0 <= i < |here| => InCall(n - 1, i));
      forall s ensures s in more <==> s.InCall? && s.call == n - 1 && StandsFor(cfg, ops, directory, s) {
        if s.InCall? && s.call == n - 1 && StandsFor(cfg, ops, directory, s) {
          assert more[s.index] == s;
        }
      }
      ListsBoth(cfg, ops, CallSources(cfg, ops, n - 1, directory), Get(Declared(cfg, ops[..n - 1]), directory),
                more, here);
    }
  }

  function Sources(cfg: Config, ops: seq<Op>, directory: Directory): seq<Source> {
    FileSources(cfg.fromFile, directory) + CallSources(cfg, ops, |ops|, directory)
  }

  lemma SourcesSpec(cfg: Config, ops: seq<Op>, directory: Directory)
    ensures Lists(cfg, ops, Sources(cfg, ops, directory), Entries(cfg, Declared(cfg, ops), directory))
    ensures forall s :: s in Sources(cfg, ops, directory) <==> StandsFor(cfg, ops, directory, s)
  {
    FileSourcesSpec(cfg, ops, directory);
    CallSourcesSpec(cfg, ops, |ops|, directory);
    assert ops[..|ops|] == ops;
    ListsBoth(cfg, ops, FileSources(cfg.fromFile, directory), Inherited(cfg.fromFile, directory),
              CallSources(cfg, ops, |ops|, directory), Get(Declared(cfg, ops), directory));
  }

  // ---------------------------------------------------------------------------------------------
  // The readings of a use, and of all uses

  /** These readings, in order, are of these variables. */
  ghost predicate ReadsOff(cfg: Config, ops: seq<Op>, readings: seq<Reading>, vs: seq<Variable>) {
    && |readings| == |vs|
    && (forall i :: 0 <= i < |readings| ==> Reads(cfg, ops, readings[i]) && VariableOf(cfg, ops, readings[i]) == vs[i])
    && (forall i, j :: 0 <= i < j < |readings| ==> ReadBefore(cfg, ops, readings[i], readings[j]))
  }

  lemma ReadsOffBoth(cfg: Config, ops: seq<Op>, q: seq<Reading>, v: seq<Variable>, r: seq<Reading>, w: seq<Variable>)
    requires ReadsOff(cfg, ops, q, v) && ReadsOff(cfg, ops, r, w)
    requires forall a, b :: a in q && b in r ==> ReadBefore(cfg, ops, a, b)
    ensures ReadsOff(cfg, ops, q + r, v + w)
  {
    forall i, j | 0 <= i < j < |q + r| ensures ReadBefore(cfg, ops, (q + r)[i], (q + r)[j]) {
      if i < |q| <= j {
        assert q[i] in q && r[j - |q|] in r;
      }
    }
  }

  /** The declarations at these sources that a use reads: those that always apply, or the scoped ones. */
  function Picked(cfg: Config, ops: seq<Op>, use: nat, sources: seq<Source>, scoped: bool): seq<Reading> {
    if sources == [] then []
    else
      Picked(cfg, ops, use, sources[..|sources| - 1], scoped) +
      if Reads(cfg, ops, Reading(use, Last(sources))) && IsScoped(cfg, ops, Last(sources)) == scoped
      then [Reading(use, Last(sources))] else []
  }

  lemma {:induction false} PickedSpec(cfg: Config, ops: seq<Op>, use: nat, sources: seq<Source>, scoped: bool)
    ensures forall r :: r in Picked(cfg, ops, use, sources, scoped) <==>
              r.use == use && r.source in sources && Reads(cfg, ops, r) && IsScoped(cfg, ops, r.source) == scoped
  {
    if sources == [] {
    } else {
      PickedSpec(cfg, ops, use, sources[..|sources| - 1], scoped);
      assert forall s :: s in sources <==> s in sources[..|sources| - 1] || s == Last(sources);
    }
  }

  /** The variables a use selects in turn: of what always applies, or of what is scoped. */
  function Taken(entries: seq<Entry>, names: set<string>, scoped: bool): seq<Variable> {
    if scoped then Matching(ScopedEntries(entries), names) else PlainVariables(entries)
  }

  lemma TakenOneMore(entries: seq<Entry>, names: set<string>, scoped: bool)
    requires entries != []
    ensures var front, last := entries[..|entries| - 1], Last(entries);
            Taken(entries, names, scoped) ==
            Taken(front, names, scoped) +
              if last.Scoped? == scoped && Readable(last, names) then [last.variable] else []
  {
    var front := ScopedEntries(entries[..|entries| - 1]);
    assert Last(entries).Scoped? ==> (front + [Last(entries)])[..|front|] == front;
    assert Last(entries).Plain? ==> ScopedEntries(entries) == front;
    assert Last(entries).Plain? ==> Matching(front, names) + [] == Matching(front, names);
  }

  lemma PickedEarlier(cfg: Config, ops: seq<Op>, use: nat, sources: seq<Source>, entries: seq<Entry>, scoped: bool,
                      a: Reading)
    requires sources != [] && Lists(cfg, ops, sources, entries) && IsScoped(cfg, ops, Last(sources)) == scoped
    requires a in Picked(cfg, ops, use, sources[..|sources| - 1], scoped)
    ensures ReadBefore(cfg, ops, a, Reading(use, Last(sources)))
  {
    PickedSpec(cfg, ops, use, sources[..|sources| - 1], scoped);
    var i :| 0 <= i < |sources| - 1 && sources[i] == a.source;
  }

  lemma OneRead(cfg: Config, ops: seq<Op>, r: Reading)
    requires Reads(cfg, ops, r)
    ensures ReadsOff(cfg, ops, [r], [VariableOf(cfg, ops, r)])
  {
  }

  lemma {:induction false} PickedReadsOff(cfg: Config, ops: seq<Op>, use: nat, sources: seq<Source>,
                                          entries: seq<Entry>, scoped: bool)
    requires use < |ops| && ops[use].Use? && Lists(cfg, ops, sources, entries)
    requires forall s :: s in sources ==> StandsFor(cfg, ops, cfg.resolve(ops[use].directory), s)
    ensures ReadsOff(cfg, ops, Picked(cfg, ops, use, sources, scoped), Taken(entries, ops[use].names, scoped))
  {
    if sources == [] {
    } else {
      var fewer, front, last := sources[..|sources| - 1], entries[..|entries| - 1], Last(sources);
      var before, vs := Picked(cfg, ops, use, fewer, scoped), Taken(front, ops[use].names, scoped);
      PickedReadsOff(cfg, ops, use, fewer, front, scoped);
      TakenOneMore(entries, ops[use].names, scoped);
      assert last in sources;
      if Reads(cfg, ops, Reading(use, last)) && IsScoped(cfg, ops, last) == scoped {
        forall a | a in before ensures ReadBefore(cfg, ops, a, Reading(use, last)) {
          PickedEarlier(cfg, ops, use, sources, entries, scoped, a);
        }
        OneRead(cfg, ops, Reading(use, last));
        ReadsOffBoth(cfg, ops, before, vs, [Reading(use, last)], [Last(entries).variable]);
      } else {
        assert before + [] == before && vs + [] == vs;
      }
    }
  }

  function UseReadings(cfg: Config, ops: seq<Op>, use: nat): seq<Reading>
    requires use < |ops|
  {
    var sources := Sources(cfg, ops, cfg.resolve(ops[use].directory));
    Picked(cfg, ops, use, sources, false) + Picked(cfg, ops, use, sources, true)
  }

  /** What one use that recomputes selects in turn. */
  ghost function Selects(cfg: Config, ops: seq<Op>, use: nat): seq<Variable>
    requires use < |ops| && ops[use].Use?
  {
    var entries := Entries(cfg, Declared(cfg, ops), cfg.resolve(ops[use].directory));
    PlainVariables(entries) + Matching(ScopedEntries(entries), ops[use].names)
  }

  lemma UseReadsOff(cfg: Config, ops: seq<Op>, use: nat)
    requires use < |ops| && ops[use].Use?
    ensures ReadsOff(cfg, ops, UseReadings(cfg, ops, use), Selects(cfg, ops, use))
    ensures forall r :: r in UseReadings(cfg, ops, use) <==> r.use == use && Reads(cfg, ops, r)
  {
    var directory := cfg.resolve(ops[use].directory);
    var sources, entries := Sources(cfg, ops, directory), Entries(cfg, Declared(cfg, ops), directory);
    SourcesSpec(cfg, ops, directory);
    PickedReadsOff(cfg, ops, use, sources, entries, false);
    PickedReadsOff(cfg, ops, use, sources, entries, true);
    PickedSpec(cfg, ops, use, sources, false);
    PickedSpec(cfg, ops, use, sources, true);
    ReadsOffBoth(cfg, ops, Picked(cfg, ops, use, sources, false), PlainVariables(entries),
                 Picked(cfg, ops, use, sources, true), Matching(ScopedEntries(entries), ops[use].names));
  }

  /** The readings of the first n calls, and what they select in turn. */
  function Readings(cfg: Config, ops: seq<Op>, n: nat): seq<Reading>
    requires n <= |ops|
  {
    if n == 0 then []
    else Readings(cfg, ops, n - 1) + if ops[n - 1].Use? then UseReadings(cfg, ops, n - 1) else []
  }

  ghost function AllSelects(cfg: Config, ops: seq<Op>, n: nat): seq<Variable>
    requires n <= |ops|
  {
    if n == 0 then []
    else AllSelects(cfg, ops, n - 1) + if ops[n - 1].Use? then Selects(cfg, ops, n - 1) else []
  }

  lemma {:induction false} AllReadOff(cfg: Config, ops: seq<Op>, n: nat)
    requires n <= |ops|
    ensures ReadsOff(cfg, ops, Readings(cfg, ops, n), AllSelects(cfg, ops, n))
    ensures forall r :: r in Readings(cfg, ops, n) <==> r.use < n && Reads(cfg, ops, r)
  {
    if n == 0 {
    } else {
      AllReadOff(cfg, ops, n - 1);
      var before, vs := Readings(cfg, ops, n - 1), AllSelects(cfg, ops, n - 1);
      if ops[n - 1].Use? {
        UseReadsOff(cfg, ops, n - 1);
        ReadsOffBoth(cfg, ops, before, vs, UseReadings(cfg, ops, n - 1), Selects(cfg, ops, n - 1));
      } else {
        assert before + [] == before && vs + [] == vs;
      }
    }
  }

  lemma OneUseSelects(selected: seq<Variable>, entries: seq<Entry>, names: set<string>)
    ensures UseEntries(selected, entries, names) ==
            SelectAll(selected, PlainVariables(entries) + Matching(ScopedEntries(entries), names))
  {
    SelectAllConcat(selected, PlainVariables(entries), Matching(ScopedEntries(entries), names));
  }

  /** Recomputing on every use selects what the readings say, one after the other. */
  lemma {:induction false} RecomputedSelectsAll(cfg: Config, ops: seq<Op>, n: nat)
    requires DeclaredBeforeUse(cfg, ops) && n <= |ops|
    ensures Recomputed(cfg, ops[..n]) == SelectAll([], AllSelects(cfg, ops, n))
  {
    if n == 0 {
    } else {
      RecomputedSelectsAll(cfg, ops, n - 1);
      assert ops[..n][..n - 1] == ops[..n - 1];
      var vs := AllSelects(cfg, ops, n - 1);
      if ops[n - 1].Use? {
        var op := ops[n - 1];
        assert ops[..n] == ops[..n - 1] + [op];
        Unfolds(cfg, ops[..n - 1], op);
        DeclarationsSettle(cfg, ops, n - 1, op.directory);
        OneUseSelects(SelectAll([], vs), Entries(cfg, Declared(cfg, ops), cfg.resolve(op.directory)), op.names);
        SelectAllConcat([], vs, Selects(cfg, ops, n - 1));
      } else {
        assert vs + [] == vs;
      }
    }
  }

  // ---------------------------------------------------------------------------------------------
  // The first declaration counts

  /** The variable at this place is the first of its name, or the first required one. */
  ghost predicate FirstAt(vs: seq<Variable>, i: nat)
    requires i < |vs|
  {
    forall j :: 0 <= j < |vs| && vs[j].name == vs[i].name ==>
      (vs[j].required ==> vs[i].required) && (j < i ==> vs[i].required && !vs[j].required)
  }

  lemma StaysFirst(front: seq<Variable>, last: Variable, i: nat)
    requires i < |front| && FirstAt(front, i)
    requires last.name == front[i].name && last.required ==> front[i].required
    ensures FirstAt(front + [last], i)
  {
  }

  lemma BecomesFirst(front: seq<Variable>, last: Variable)
    requires forall j :: 0 <= j < |front| && front[j].name == last.name ==> last.required && !front[j].required
    ensures FirstAt(front + [last], |front|)
  {
  }

  /** Selecting one more keeps every other variable, and one of the same name that it does not beat. */
  lemma SelectedOneMore(before: seq<Variable>, last: Variable, s: Variable)
    requires UniqueNames(before) && s in Select(before, last)
    ensures s == last || (s in before && (last.name == s.name && last.required ==> s.required))
  {
    var k := Find(before, last.name);
    var i :| 0 <= i < |Select(before, last)| && Select(before, last)[i] == s;
  }

  lemma SelectedUnique(vs: seq<Variable>)
    ensures UniqueNames(SelectAll([], vs))
  {
    SelectAllKeepsCover([], vs);
  }

  lemma SelectedCovers(vs: seq<Variable>, j: nat)
    requires j < |vs|
    ensures Covered(SelectAll([], vs), vs[j])
  {
    SelectAllKeepsCover([], vs);
  }

  lemma {:induction false} FirstIsSelected(vs: seq<Variable>, s: Variable) returns (i: nat)
    requires s in SelectAll([], vs)
    ensures i < |vs| && vs[i] == s && FirstAt(vs, i)
    decreases |vs|, 1
  {
    var front, last := vs[..|vs| - 1], Last(vs);
    var before := SelectAll([], front);
    assert vs == front + [last];
    SelectedUnique(front);
    SelectedOneMore(before, last, s);
    if s in before && (last.name == s.name && last.required ==> s.required) {
      i := FirstIsSelected(front, s);
      StaysFirst(front, last, i);
    } else {
      i := |front|;
      LastComesFirst(front, last);
    }
  }

  /** A variable selected only at the end is new, or required where those of its name before it were not. */
  lemma LastComesFirst(front: seq<Variable>, last: Variable)
    requires last in Select(SelectAll([], front), last) && last !in SelectAll([], front)
    ensures FirstAt(front + [last], |front|)
    decreases |front| + 1, 0
  {
    var before := SelectAll([], front);
    SelectedUnique(front);
    var k := Find(before, last.name);
    if k >= 0 {
      assert last.required && !before[k].required;
      var j := FirstIsSelected(front, before[k]);
    }
    forall j | 0 <= j < |front| && front[j].name == last.name ensures last.required && !front[j].required {
      SelectedCovers(front, j);
    }
    BecomesFirst(front, last);
  }

  /**
   Each selected variable is one a use reads, and of all read of that name it is the first, or the
   first required one if any is required.
   */
  lemma FirstDeclarationCounts(check: EnvironmentCheck, s: Variable) returns (r: Reading)
    requires check.Valid() && DeclaredBeforeUse(check.cfg, check.ops) && s in check.selected
    ensures Reads(check.cfg, check.ops, r) && VariableOf(check.cfg, check.ops, r) == s
    ensures CountsFor(check.cfg, check.ops, r)
  {
    var cfg, ops := check.cfg, check.ops;
    DeclaringFirstIsEnough(cfg, ops);
    CachedIsRecomputed(check);
    RecomputedSelectsAll(cfg, ops, |ops|);
    assert ops[..|ops|] == ops;
    var vs := AllSelects(cfg, ops, |ops|);
    var i := FirstIsSelected(vs, s);
    AllReadOff(cfg, ops, |ops|);
    r := Readings(cfg, ops, |ops|)[i];
    FirstReadingCounts(cfg, ops, Readings(cfg, ops, |ops|), vs, i);
  }

  lemma FirstReadingCounts(cfg: Config, ops: seq<Op>, readings: seq<Reading>, vs: seq<Variable>, i: nat)
    requires ReadsOff(cfg, ops, readings, vs) && i < |vs| && FirstAt(vs, i)
    requires forall r :: r in readings <==> Reads(cfg, ops, r)
    ensures CountsFor(cfg, ops, readings[i])
  {
    forall q | Reads(cfg, ops, q) && VariableOf(cfg, ops, q).name == vs[i].name
      ensures VariableOf(cfg, ops, q).required ==> vs[i].required
      ensures ReadBefore(cfg, ops, q, readings[i]) ==> vs[i].required && !VariableOf(cfg, ops, q).required
    {
      var j :| 0 <= j < |readings| && readings[j] == q;
      if i <= j {
        NotBeforeItself(cfg, ops, q, readings[i]);
        assert i < j ==> ReadBefore(cfg, ops, readings[i], readings[j]);
      }
    }
  }

  lemma NotBeforeItself(cfg: Config, ops: seq<Op>, q: Reading, r: Reading)
    requires Reads(cfg, ops, q) && Reads(cfg, ops, r)
    ensures ReadBefore(cfg, ops, r, q) || q == r ==> !ReadBefore(cfg, ops, q, r)
  {
  }
}
