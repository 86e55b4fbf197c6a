/**
 Which declared environment variables apply to the targets a run selected: the cached, incremental
 selection of EnvironmentCheck against one that recomputes the declarations on every use.
 */
module EnvVars {
  import opened Common
  import opened Sorting
  import opened Text

  datatype Variable = Variable(name: string, purpose: string, required: bool, fallback: Option<string>)

  /** A declaration that always applies, or one scoped to the users of some names. */
  datatype Entry = Plain(variable: Variable) | Scoped(variable: Variable, usedBy: set<string>)

  /** A resolved directory, as its path components from the root. */
  type Directory = seq<string>

  /** A path as a caller spells it; several spellings may resolve to one directory. */
  type Path = string

  datatype Op = Declare(directory: Path, entries: seq<Entry>) | Use(directory: Path, names: set<string>)

  datatype Config = Config(fromFile: map<Directory, seq<Entry>>, resolve: Path -> Directory)

  // ---------------------------------------------------------------------------------------------
  // The declarations of a directory

  function Get<K>(m: map<K, seq<Entry>>, key: K): seq<Entry> {
    if key in m then m[key] else []
  }

  /** The file's declarations for the directory and then each of its parents up to the root. */
  function Inherited(fromFile: map<Directory, seq<Entry>>, directory: Directory): seq<Entry> {
    Get(fromFile, directory) +
    if directory == [] then [] else Inherited(fromFile, directory[..|directory| - 1])
  }

  function Entries(cfg: Config, declared: map<Directory, seq<Entry>>, directory: Directory): seq<Entry> {
    Inherited(cfg.fromFile, directory) + Get(declared, directory)
  }

  function AddDeclared(cfg: Config, declared: map<Directory, seq<Entry>>, path: Path, entries: seq<Entry>)
    : map<Directory, seq<Entry>>
  {
    var directory := cfg.resolve(path);
    declared[directory := Get(declared, directory) + entries]
  }

  /** Everything declared by a history of calls. */
  function Declared(cfg: Config, ops: seq<Op>): map<Directory, seq<Entry>> {
    if ops == [] then map[]
    else
      var before := Declared(cfg, ops[..|ops| - 1]);
      match Last(ops)
      case Declare(path, entries) => AddDeclared(cfg, before, path, entries)
      case Use(_, _) => before
  }

  // ---------------------------------------------------------------------------------------------
  // Selecting

  function Find(selected: seq<Variable>, name: string): (i: int)
    ensures -1 <= i < |selected|
    ensures i >= 0 ==> selected[i].name == name
    ensures i == -1 ==> forall k :: 0 <= k < |selected| ==> selected[k].name != name
  {
    if selected == [] then -1
    else if Last(selected).name == name then |selected| - 1
    else Find(selected[..|selected| - 1], name)
  }

  /** _select: the first declaration of a name stays, until a required one replaces an optional one. */
  function Select(selected: seq<Variable>, v: Variable): seq<Variable> {
    var i := Find(selected, v.name);
    if i < 0 then selected + [v]
    else if v.required && !selected[i].required then selected[i := v]
    else selected
  }

  function SelectAll(selected: seq<Variable>, vs: seq<Variable>): seq<Variable> {
    if vs == [] then selected else Select(SelectAll(selected, vs[..|vs| - 1]), Last(vs))
  }

  lemma SelectAllSnoc(selected: seq<Variable>, vs: seq<Variable>, v: Variable)
    ensures SelectAll(selected, vs + [v]) == Select(SelectAll(selected, vs), v)
  {
  }

  function PlainVariables(entries: seq<Entry>): seq<Variable> {
    if entries == [] then []
    else PlainVariables(entries[..|entries| - 1]) + if Last(entries).Plain? then [Last(entries).variable] else []
  }

  function ScopedEntries(entries: seq<Entry>): seq<Entry> {
    if entries == [] then []
    else ScopedEntries(entries[..|entries| - 1]) + if Last(entries).Scoped? then [Last(entries)] else []
  }

  function Matching(entries: seq<Entry>, names: set<string>): seq<Variable> {
    if entries == [] then []
    else
      Matching(entries[..|entries| - 1], names) +
      if Last(entries).Scoped? && Last(entries).usedBy * names != {} then [Last(entries).variable] else []
  }

  /** One use() that reads the directory's declarations afresh. */
  function UseEntries(selected: seq<Variable>, entries: seq<Entry>, names: set<string>): seq<Variable> {
    SelectAll(SelectAll(selected, PlainVariables(entries)), Matching(ScopedEntries(entries), names))
  }

  /** The reference: every use() recomputes _entries. */
  function Recomputed(cfg: Config, ops: seq<Op>): seq<Variable> {
    if ops == [] then []
    else
      var before := Recomputed(cfg, ops[..|ops| - 1]);
      match Last(ops)
      case Declare(_, _) => before
      case Use(path, names) => UseEntries(before, Entries(cfg, Declared(cfg, ops), cfg.resolve(path)), names)
  }

  // ---------------------------------------------------------------------------------------------
  // The object, with its per-path cache

  class EnvironmentCheck {
    const cfg: Config
    var declared: map<Directory, seq<Entry>>
    var scoped: map<Path, seq<Entry>>
    var selected: seq<Variable>
    ghost var ops: seq<Op>  // the calls so far

    ghost predicate Valid()
      reads this
    {
      && declared == Declared(cfg, ops)
      && Cache(cfg, ops, scoped, selected)
      && selected == Frozen(cfg, ops)
    }

    constructor (cfg: Config)
      ensures Valid() && this.cfg == cfg && ops == []
    {
      this.cfg := cfg;
      declared, scoped, selected, ops := map[], map[], [], [];
    }

    method AddEntries(directory: Path, entries: seq<Entry>)
      requires Valid()
      modifies this
      ensures Valid() && ops == old(ops) + [Declare(directory, entries)]
    {
      CacheAfterDeclare(cfg, ops, directory, entries, scoped, selected);
      declared := AddDeclared(cfg, declared, directory, entries);
      ops := ops + [Declare(directory, entries)];
      assert ops[..|ops| - 1] == old(ops);
    }

    method Record(directory: Path, names: set<string>)
      requires Valid()
      modifies this
      ensures Valid() && ops == old(ops) + [Use(directory, names)]
    {
      if directory !in scoped {
        var own;
        selected, own := ReadEntries(selected, Entries(cfg, declared, cfg.resolve(directory)));
        scoped := scoped[directory := own];
      }
      ghost var plain := selected;
      selected := SelectMatching(selected, scoped[directory], names);
      UseRecorded(cfg, ops, directory, names, old(scoped), old(selected), scoped, plain, selected);
      ops := ops + [Use(directory, names)];
    }

    /** Required variables that apply and are unset, by name. */
    method MissingVariables(isSet: string -> bool) returns (missing: seq<Variable>)
      requires Valid()
      ensures missing == Missing(selected, isSet) && forall v :: v in missing ==> v in selected
      ensures SortedBy(StrLeq, Names(missing)) && Distinct(Names(missing))
      ensures forall name :: name in Names(missing) <==> RequiredIn(selected, name) && !isSet(name)
    {
      missing := Missing(selected, isSet);
      MissingSpec(selected, isSet);
      MissingAreSelected(selected, isSet);
    }
  }

  /** First use of a path: select what always applies, keep the scoped declarations for later uses. */
  method ReadEntries(before: seq<Variable>, entries: seq<Entry>) returns (selected: seq<Variable>, own: seq<Entry>)
    ensures selected == SelectAll(before, PlainVariables(entries)) && own == ScopedEntries(entries)
  {
    selected, own := before, [];
    for i := 0 to |entries|
      invariant own == ScopedEntries(entries[..i])
      invariant selected == SelectAll(before, PlainVariables(entries[..i]))
    {
      assert entries[..i + 1][..i] == entries[..i];
      if entries[i].Scoped? {
        own := own + [entries[i]];
        assert PlainVariables(entries[..i + 1]) == PlainVariables(entries[..i]);
      } else {
        assert ScopedEntries(entries[..i + 1]) == ScopedEntries(entries[..i]);
        SelectAllSnoc(before, PlainVariables(entries[..i]), entries[i].variable);
        selected := Select(selected, entries[i].variable);
      }
    }
    assert entries[..|entries|] == entries;
  }

  lemma MatchingSnoc(own: seq<Entry>, i: nat, names: set<string>)
    requires i < |own|
    ensures Matching(own[..i + 1], names) ==
            if own[i].Scoped? && own[i].usedBy * names != {} then Matching(own[..i], names) + [own[i].variable]
            else Matching(own[..i], names)
  {
    assert own[..i + 1][..i] == own[..i];
  }

  /** Every use: select the scoped declarations that share a name with it. */
  method SelectMatching(before: seq<Variable>, own: seq<Entry>, names: set<string>) returns (selected: seq<Variable>)
    ensures selected == SelectAll(before, Matching(own, names))
  {
    selected := before;
    for i := 0 to |own|
      invariant selected == SelectAll(before, Matching(own[..i], names))
    {
      MatchingSnoc(own, i, names);
      if own[i].Scoped? && own[i].usedBy * names != {} {
        SelectAllSnoc(before, Matching(own[..i], names), own[i].variable);
        selected := Select(selected, own[i].variable);
      }
    }
    assert own[..|own|] == own;
  }

  // ---------------------------------------------------------------------------------------------
  // What the cache amounts to

  /** The index of the first use of this path, or the length of the history. */
  function FirstUse(ops: seq<Op>, path: Path): (i: nat)
    ensures i <= |ops|
    ensures i < |ops| ==> ops[i].Use? && ops[i].directory == path
    ensures forall k :: 0 <= k < i ==> !(ops[k].Use? && ops[k].directory == path)
  {
    if ops == [] || (ops[0].Use? && ops[0].directory == path) then 0 else 1 + FirstUse(ops[1..], path)
  }

  /** The declarations of the path as they stood at its first use. */
  function EntriesAtFirstUse(cfg: Config, ops: seq<Op>, path: Path): seq<Entry> {
    Entries(cfg, Declared(cfg, ops[..FirstUse(ops, path)]), cfg.resolve(path))
  }

  /** The selection when every use reads the declarations its path had at its first use. */
  function Frozen(cfg: Config, ops: seq<Op>): seq<Variable> {
    if ops == [] then []
    else
      var before := Frozen(cfg, ops[..|ops| - 1]);
      match Last(ops)
      case Declare(_, _) => before
      case Use(path, names) => UseEntries(before, EntriesAtFirstUse(cfg, ops, path), names)
  }

  /** Selecting this variable again would change nothing. */
  ghost predicate Covered(selected: seq<Variable>, v: Variable) {
    exists i :: 0 <= i < |selected| && selected[i].name == v.name && (v.required ==> selected[i].required)
  }

  ghost predicate UniqueNames(selected: seq<Variable>) {
    forall i, j :: 0 <= i < j < |selected| ==> selected[i].name != selected[j].name
  }

  ghost predicate Cache(cfg: Config, ops: seq<Op>, scoped: map<Path, seq<Entry>>, selected: seq<Variable>) {
    && UniqueNames(selected)
    && (forall path :: path in scoped <==> FirstUse(ops, path) < |ops|)
    && (forall path :: path in scoped ==> CachedEntry(cfg, ops, path, scoped[path], selected))
  }

  /** The path's scoped declarations are cached, and what always applies there is selected. */
  ghost predicate CachedEntry(cfg: Config, ops: seq<Op>, path: Path, own: seq<Entry>, selected: seq<Variable>) {
    && own == ScopedEntries(EntriesAtFirstUse(cfg, ops, path))
    && (forall v :: v in PlainVariables(EntriesAtFirstUse(cfg, ops, path)) ==> Covered(selected, v))
  }

  lemma SelectKeepsCover(selected: seq<Variable>, v: Variable, w: Variable)
    requires UniqueNames(selected)
    ensures UniqueNames(Select(selected, v)) && Covered(Select(selected, v), v)
    ensures Covered(selected, w) ==> Covered(Select(selected, v), w)
    ensures Covered(selected, v) ==> Select(selected, v) == selected
  {
    var i := Find(selected, v.name);
    var after := Select(selected, v);
    if i < 0 {
      assert after[|selected|] == v;
    } else {
      assert after[i].name == v.name;
    }
    if k :| 0 <= k < |selected| && selected[k].name == w.name && (w.required ==> selected[k].required) {
      assert after[k].name == w.name;
    }
  }

  lemma {:induction false} SelectAllKeepsCover(selected: seq<Variable>, vs: seq<Variable>)
    requires UniqueNames(selected)
    ensures UniqueNames(SelectAll(selected, vs))
    ensures forall w :: Covered(selected, w) || w in vs ==> Covered(SelectAll(selected, vs), w)
    ensures (forall v :: v in vs ==> Covered(selected, v)) ==> SelectAll(selected, vs) == selected
  {
    if vs == [] {
    } else {
      var front := vs[..|vs| - 1];
      assert vs == front + [Last(vs)];
      SelectAllKeepsCover(selected, front);
      forall w ensures Covered(selected, w) || w in vs ==> Covered(SelectAll(selected, vs), w) {
        SelectKeepsCover(SelectAll(selected, front), Last(vs), w);
      }
      SelectKeepsCover(SelectAll(selected, front), Last(vs), Last(vs));
    }
  }

  /** A path that has been used keeps its first use, and so its frozen declarations, as the history grows. */
  lemma FirstUseStays(cfg: Config, ops: seq<Op>, op: Op, path: Path)
    ensures FirstUse(ops, path) < |ops| ==>
              FirstUse(ops + [op], path) == FirstUse(ops, path)
              && EntriesAtFirstUse(cfg, ops + [op], path) == EntriesAtFirstUse(cfg, ops, path)
    ensures FirstUse(ops, path) == |ops| && op.Use? && op.directory == path ==>
              FirstUse(ops + [op], path) == |ops|
              && EntriesAtFirstUse(cfg, ops + [op], path) == Entries(cfg, Declared(cfg, ops), cfg.resolve(path))
    ensures FirstUse(ops, path) == |ops| && !(op.Use? && op.directory == path) ==>
              FirstUse(ops + [op], path) == |ops| + 1
  {
    var longer := ops + [op];
    assert forall k :: 0 <= k < |ops| ==> longer[k] == ops[k];
    assert longer[|ops|] == op;
    assert FirstUse(ops, path) < |ops| ==> longer[FirstUse(ops, path)] == ops[FirstUse(ops, path)];
    assert longer[..FirstUse(ops, path)] == ops[..FirstUse(ops, path)];
    assert ops[..|ops|] == ops;
  }

  lemma CacheAfterDeclare(cfg: Config, ops: seq<Op>, path: Path, entries: seq<Entry>,
                          scoped: map<Path, seq<Entry>>, selected: seq<Variable>)
    requires Cache(cfg, ops, scoped, selected)
    ensures Cache(cfg, ops + [Declare(path, entries)], scoped, selected)
  {
    forall p ensures p in scoped <==> FirstUse(ops + [Declare(path, entries)], p) < |ops| + 1 {
      FirstUseStays(cfg, ops, Declare(path, entries), p);
    }
    forall p | p in scoped ensures CachedEntry(cfg, ops + [Declare(path, entries)], p, scoped[p], selected) {
      FirstUseStays(cfg, ops, Declare(path, entries), p);
      assert CachedEntry(cfg, ops, p, scoped[p], selected);
    }
  }

  /** The cached use: what it selects and caches is what the frozen declarations say. */
  lemma CacheAfterUse(cfg: Config, ops: seq<Op>, path: Path, names: set<string>,
                      scoped: map<Path, seq<Entry>>, selected: seq<Variable>)
    requires Cache(cfg, ops, scoped, selected)
    ensures var longer := ops + [Use(path, names)];
            var entries := EntriesAtFirstUse(cfg, longer, path);
            && (path !in scoped ==> entries == Entries(cfg, Declared(cfg, ops), cfg.resolve(path)))
            && (path in scoped ==> SelectAll(selected, PlainVariables(entries)) == selected
                                   && scoped[path] == ScopedEntries(entries))
            && Cache(cfg, longer, scoped[path := ScopedEntries(entries)], UseEntries(selected, entries, names))
  {
    var op := Use(path, names);
    var longer := ops + [op];
    var entries := EntriesAtFirstUse(cfg, longer, path);
    var plain := SelectAll(selected, PlainVariables(entries));
    FirstUseStays(cfg, ops, op, path);
    SelectAllKeepsCover(selected, PlainVariables(entries));
    SelectAllKeepsCover(plain, Matching(ScopedEntries(entries), names));
    var scoped' := scoped[path := ScopedEntries(entries)];
    var selected' := UseEntries(selected, entries, names);
    forall p ensures p in scoped' <==> FirstUse(longer, p) < |longer| {
      FirstUseStays(cfg, ops, op, p);
    }
    forall p | p in scoped'
      ensures scoped'[p] == ScopedEntries(EntriesAtFirstUse(cfg, longer, p))
      ensures forall v :: v in PlainVariables(EntriesAtFirstUse(cfg, longer, p)) ==> Covered(selected', v)
    {
      FirstUseStays(cfg, ops, op, p);
    }
  }

  lemma FrozenAfterUse(cfg: Config, ops: seq<Op>, path: Path, names: set<string>)
    ensures var longer := ops + [Use(path, names)];
            && Frozen(cfg, longer) == UseEntries(Frozen(cfg, ops), EntriesAtFirstUse(cfg, longer, path), names)
            && Declared(cfg, longer) == Declared(cfg, ops)
  {
  }

  /** The branch use() takes, and both of its loops, amount to one use of the frozen declarations. */
  lemma CachedUseIsFrozen(cfg: Config, ops: seq<Op>, path: Path, names: set<string>,
                          scoped: map<Path, seq<Entry>>, selected: seq<Variable>,
                          scoped': map<Path, seq<Entry>>, selected': seq<Variable>)
    requires Cache(cfg, ops, scoped, selected) && selected == Frozen(cfg, ops)
    requires path in scoped ==>
               scoped' == scoped && selected' == SelectAll(selected, Matching(scoped[path], names))
    requires path !in scoped ==>
               var entries := Entries(cfg, Declared(cfg, ops), cfg.resolve(path));
               scoped' == scoped[path := ScopedEntries(entries)] && selected' == UseEntries(selected, entries, names)
    ensures var longer := ops + [Use(path, names)];
            Cache(cfg, longer, scoped', selected') && selected' == Frozen(cfg, longer)
            && Declared(cfg, longer) == Declared(cfg, ops)
  {
    var longer := ops + [Use(path, names)];
    FrozenAfterUse(cfg, ops, path, names);
    CacheAfterUse(cfg, ops, path, names, scoped, selected);
    var entries := EntriesAtFirstUse(cfg, longer, path);
    assert scoped' == scoped[path := ScopedEntries(entries)];
    assert selected' == UseEntries(selected, entries, names);
  }

  lemma UseRecorded(cfg: Config, ops: seq<Op>, path: Path, names: set<string>,
                    scoped: map<Path, seq<Entry>>, selected: seq<Variable>,
                    scoped': map<Path, seq<Entry>>, plain: seq<Variable>, selected': seq<Variable>)
    requires Cache(cfg, ops, scoped, selected) && selected == Frozen(cfg, ops)
    requires path in scoped ==> scoped' == scoped && plain == selected
    requires path !in scoped ==>
               var entries := Entries(cfg, Declared(cfg, ops), cfg.resolve(path));
               && plain == SelectAll(selected, PlainVariables(entries))
               && scoped' == scoped[path := ScopedEntries(entries)]
    requires path in scoped' && selected' == SelectAll(plain, Matching(scoped'[path], names))
    ensures var longer := ops + [Use(path, names)];
            Cache(cfg, longer, scoped', selected') && selected' == Frozen(cfg, longer)
            && Declared(cfg, longer) == Declared(cfg, ops)
  {
    CachedUseIsFrozen(cfg, ops, path, names, scoped, selected, scoped', selected');
  }

  // ---------------------------------------------------------------------------------------------
  // Agreement with recomputing

  /** Both operations concern one directory, however they spell it. */
  predicate SameDirectory(cfg: Config, a: Op, b: Op) {
    cfg.resolve(a.directory) == cfg.resolve(b.directory)
  }

  /** A use, between these two moments, of the directory that operation k is about. */
  predicate UsesBetween(cfg: Config, ops: seq<Op>, j: int, m: int, k: int)
    requires 0 <= k < |ops|
  {
    0 <= j < m < k && ops[m].Use? && SameDirectory(cfg, ops[m], ops[k])
  }

  /** Use k is the first since the declaration j to read its directory, or the first to bring some name there. */
  ghost predicate ReadsFirst(cfg: Config, ops: seq<Op>, j: int, k: int)
    requires 0 <= j < k < |ops| && ops[k].Use?
  {
    || (forall m :: !UsesBetween(cfg, ops, j, m, k))
    || (exists x :: x in ops[k].names && forall m :: UsesBetween(cfg, ops, j, m, k) ==> x !in ops[m].names)
  }

  /** The path of use k, spelled like that, was used before the declaration j, so its cache entry is older. */
  predicate CachedBefore(ops: seq<Op>, j: int, k: int)
    requires 0 <= j < k < |ops|
  {
    exists i :: 0 <= i < j && ops[i].Use? && ops[i].directory == ops[k].directory
  }

  /** Use k should be the first to read what j declares, and takes the branch that does not read. */
  ghost predicate Stale(cfg: Config, ops: seq<Op>, j: int, k: int) {
    && 0 <= j < k < |ops| && ops[j].Declare? && ops[k].Use? && SameDirectory(cfg, ops[j], ops[k])
    && CachedBefore(ops, j, k) && ReadsFirst(cfg, ops, j, k)
  }

  /** No use takes the cached branch where a declaration of its directory is still unread. */
  ghost predicate NothingStale(cfg: Config, ops: seq<Op>) {
    forall j, k :: Stale(cfg, ops, j, k) ==> ops[j].entries == []
  }

  /** What was declared for a directory between two moments. */
  function Late(cfg: Config, ops: seq<Op>, i: nat, n: nat, directory: Directory): seq<Entry>
    requires i <= n <= |ops|
  {
    if i == n then []
    else
      Late(cfg, ops, i, n - 1, directory) + DeclaredHere(cfg, ops[n - 1], directory)
  }

  function DeclaredHere(cfg: Config, op: Op, directory: Directory): seq<Entry> {
    if op.Declare? && cfg.resolve(op.directory) == directory then op.entries else []
  }

  lemma DeclaredOneMore(cfg: Config, ops: seq<Op>, n: nat, directory: Directory)
    requires 0 < n <= |ops|
    ensures Get(Declared(cfg, ops[..n]), directory) ==
            Get(Declared(cfg, ops[..n - 1]), directory) + DeclaredHere(cfg, ops[n - 1], directory)
  {
    assert ops[..n][..n - 1] == ops[..n - 1];
  }

  lemma {:induction false} DeclaredThenLate(cfg: Config, ops: seq<Op>, i: nat, n: nat, directory: Directory)
    requires i <= n <= |ops|
    ensures Get(Declared(cfg, ops[..n]), directory) ==
            Get(Declared(cfg, ops[..i]), directory) + Late(cfg, ops, i, n, directory)
  {
    if i == n {
    } else {
      DeclaredThenLate(cfg, ops, i, n - 1, directory);
      DeclaredOneMore(cfg, ops, n, directory);
      ConcatAssociative(Get(Declared(cfg, ops[..i]), directory), Late(cfg, ops, i, n - 1, directory),
                        DeclaredHere(cfg, ops[n - 1], directory));
    }
  }

  lemma {:induction false} LateIsDeclared(cfg: Config, ops: seq<Op>, i: nat, n: nat, directory: Directory, e: Entry)
      returns (j: nat)
    requires i <= n <= |ops| && e in Late(cfg, ops, i, n, directory)
    ensures i <= j < n && ops[j].Declare? && cfg.resolve(ops[j].directory) == directory && e in ops[j].entries
  {
    if e in Late(cfg, ops, i, n - 1, directory) {
      j := LateIsDeclared(cfg, ops, i, n - 1, directory, e);
    } else {
      j := n - 1;
    }
  }

  lemma DeclaredIsHeld(cfg: Config, ops: seq<Op>, j: nat, n: nat, e: Entry)
    requires j < n <= |ops| && ops[j].Declare? && e in ops[j].entries
    ensures e in Get(Declared(cfg, ops[..n]), cfg.resolve(ops[j].directory))
  {
    DeclaredThenLate(cfg, ops, j + 1, n, cfg.resolve(ops[j].directory));
    assert ops[..j + 1][..j] == ops[..j];
  }

  /** A use with these names selects the entry. */
  predicate Readable(e: Entry, names: set<string>) {
    e.Scoped? ==> e.usedBy * names != {}
  }

  lemma UseKeepsCover(selected: seq<Variable>, entries: seq<Entry>, names: set<string>)
    requires UniqueNames(selected)
    ensures UniqueNames(UseEntries(selected, entries, names))
    ensures forall v :: Covered(selected, v) ==> Covered(UseEntries(selected, entries, names), v)
    ensures forall e :: e in entries && Readable(e, names) ==> Covered(UseEntries(selected, entries, names), e.variable)
  {
    var plain := SelectAll(selected, PlainVariables(entries));
    SelectAllKeepsCover(selected, PlainVariables(entries));
    SelectAllKeepsCover(plain, Matching(ScopedEntries(entries), names));
    forall e | e in entries && Readable(e, names) ensures Covered(UseEntries(selected, entries, names), e.variable) {
      PlainOrMatching(entries, names, e.variable);
    }
  }

  /** Whatever a use read stays covered. */
  lemma {:induction false} UsedIsCovered(cfg: Config, ops: seq<Op>)
    ensures UniqueNames(Recomputed(cfg, ops))
    ensures forall m, e :: 0 <= m < |ops| && ReadBy(cfg, ops, m, e) ==> Covered(Recomputed(cfg, ops), e.variable)
  {
    if ops == [] {
    } else {
      var front := ops[..|ops| - 1];
      UsedIsCovered(cfg, front);
      if Last(ops).Use? {
        UseKeepsCover(Recomputed(cfg, front), Entries(cfg, Declared(cfg, ops), cfg.resolve(Last(ops).directory)),
                      Last(ops).names);
      }
      forall m, e | 0 <= m < |ops| && ReadBy(cfg, ops, m, e) ensures Covered(Recomputed(cfg, ops), e.variable) {
        assert m < |front| ==> front[..m] == ops[..m] && ReadBy(cfg, front, m, e);
        assert m == |front| ==> ops[..m] == front;
      }
    }
  }

  /** A recomputing use at this moment selects the entry. */
  ghost predicate ReadBy(cfg: Config, ops: seq<Op>, m: int, e: Entry)
    requires 0 <= m < |ops|
  {
    && ops[m].Use? && Readable(e, ops[m].names)
    && e in Entries(cfg, Declared(cfg, ops[..m]), cfg.resolve(ops[m].directory))
  }

  lemma {:induction false} SelectAllConcat(selected: seq<Variable>, a: seq<Variable>, b: seq<Variable>)
    ensures SelectAll(selected, a + b) == SelectAll(SelectAll(selected, a), b)
  {
    if b == [] {
      assert a + b == a;
    } else {
      SelectAllConcat(selected, a, b[..|b| - 1]);
      assert (a + b)[..|a + b| - 1] == a + b[..|b| - 1];
    }
  }

  lemma {:induction false} PlainConcat(a: seq<Entry>, b: seq<Entry>)
    ensures PlainVariables(a + b) == PlainVariables(a) + PlainVariables(b)
  {
    if b == [] {
      assert a + b == a;
    } else {
      PlainConcat(a, b[..|b| - 1]);
      assert (a + b)[..|a + b| - 1] == a + b[..|b| - 1];
    }
  }

  lemma {:induction false} ScopedConcat(a: seq<Entry>, b: seq<Entry>)
    ensures ScopedEntries(a + b) == ScopedEntries(a) + ScopedEntries(b)
  {
    if b == [] {
      assert a + b == a;
    } else {
      ScopedConcat(a, b[..|b| - 1]);
      assert (a + b)[..|a + b| - 1] == a + b[..|b| - 1];
    }
  }

  lemma {:induction false} MatchingConcat(a: seq<Entry>, b: seq<Entry>, names: set<string>)
    ensures Matching(a + b, names) == Matching(a, names) + Matching(b, names)
  {
    if b == [] {
      assert a + b == a;
    } else {
      MatchingConcat(a, b[..|b| - 1], names);
      assert (a + b)[..|a + b| - 1] == a + b[..|b| - 1];
    }
  }

  /** Entries that are covered already, or not readable, add nothing to a use. */
  lemma UseUnchanged(selected: seq<Variable>, entries: seq<Entry>, late: seq<Entry>, names: set<string>)
    requires UniqueNames(selected)
    requires forall e :: e in late && Readable(e, names) ==> Covered(selected, e.variable)
    ensures UseEntries(selected, entries + late, names) == UseEntries(selected, entries, names)
  {
    forall v | v in PlainVariables(late) || v in Matching(ScopedEntries(late), names) ensures Covered(selected, v) {
      PlainOrMatching(late, names, v);
    }
    var plain := SelectAll(selected, PlainVariables(entries));
    var all := SelectAll(plain, Matching(ScopedEntries(entries), names));
    PlainConcat(entries, late);
    ScopedConcat(entries, late);
    MatchingConcat(ScopedEntries(entries), ScopedEntries(late), names);
    SelectAllConcat(selected, PlainVariables(entries), PlainVariables(late));
    SelectAllConcat(plain, Matching(ScopedEntries(entries), names), Matching(ScopedEntries(late), names));
    SelectAllKeepsCover(selected, PlainVariables(entries));
    SelectAllKeepsCover(plain, PlainVariables(late));
    SelectAllKeepsCover(plain, Matching(ScopedEntries(entries), names));
    SelectAllKeepsCover(all, Matching(ScopedEntries(late), names));
  }

  /** What was declared since a path's first use and is readable by its last one has been read in between. */
  lemma LateIsCovered(cfg: Config, ops: seq<Op>, e: Entry)
    requires NothingStale(cfg, ops) && ops != [] && Last(ops).Use?
    requires var path := Last(ops).directory;
             && FirstUse(ops, path) < |ops| - 1
             && e in Late(cfg, ops, FirstUse(ops, path), |ops| - 1, cfg.resolve(path))
    requires Readable(e, Last(ops).names)
    ensures Covered(Recomputed(cfg, ops[..|ops| - 1]), e.variable)
  {
    var k, front := |ops| - 1, ops[..|ops| - 1];
    var i := FirstUse(ops, ops[k].directory);
    var j := LateIsDeclared(cfg, ops, i, k, cfg.resolve(ops[k].directory), e);
    assert j != i && CachedBefore(ops, j, k);
    assert !Stale(cfg, ops, j, k);
    var m :| UsesBetween(cfg, ops, j, m, k) && Readable(e, ops[m].names);
    DeclaredIsHeld(cfg, ops, j, m, e);
    assert front[..m] == ops[..m] && ReadBy(cfg, front, m, e);
    UsedIsCovered(cfg, front);
  }

  lemma NothingStaleBefore(cfg: Config, ops: seq<Op>)
    requires NothingStale(cfg, ops) && ops != []
    ensures NothingStale(cfg, ops[..|ops| - 1])
  {
    var front := ops[..|ops| - 1];
    forall j, k | Stale(cfg, front, j, k) ensures front[j].entries == [] {
      StaleInLonger(cfg, front, ops, j, k);
    }
  }

  /** Whether a use is stale depends on what came before it only. */
  lemma StaleInLonger(cfg: Config, front: seq<Op>, ops: seq<Op>, j: int, k: int)
    requires front <= ops && k < |front|
    ensures Stale(cfg, front, j, k) <==> Stale(cfg, ops, j, k)
  {
    assert forall m :: 0 <= m < |front| ==> front[m] == ops[m];
    if 0 <= j < k && ops[k].Use? {
      assert forall m :: UsesBetween(cfg, front, j, m, k) <==> UsesBetween(cfg, ops, j, m, k);
    }
  }

  /** While nothing is stale, reading the declarations once selects what recomputing selects, values included. */
  lemma {:induction false} FrozenIsRecomputed(cfg: Config, ops: seq<Op>)
    requires NothingStale(cfg, ops)
    ensures Frozen(cfg, ops) == Recomputed(cfg, ops)
  {
    if ops == [] {
    } else {
      var front := ops[..|ops| - 1];
      NothingStaleBefore(cfg, ops);
      FrozenIsRecomputed(cfg, front);
      if Last(ops).Use? {
        LastUseAgrees(cfg, ops);
      }
    }
  }

  lemma EntriesThenLate(cfg: Config, ops: seq<Op>, i: nat, n: nat, directory: Directory)
    requires i <= n <= |ops|
    ensures Entries(cfg, Declared(cfg, ops[..n]), directory) ==
            Entries(cfg, Declared(cfg, ops[..i]), directory) + Late(cfg, ops, i, n, directory)
  {
    DeclaredThenLate(cfg, ops, i, n, directory);
    ConcatAssociative(Inherited(cfg.fromFile, directory), Get(Declared(cfg, ops[..i]), directory),
                      Late(cfg, ops, i, n, directory));
  }

  lemma LastUseAgrees(cfg: Config, ops: seq<Op>)
    requires NothingStale(cfg, ops) && ops != [] && Last(ops).Use?
    ensures var use, before := Last(ops), Recomputed(cfg, ops[..|ops| - 1]);
            UseEntries(before, EntriesAtFirstUse(cfg, ops, use.directory), use.names) ==
            UseEntries(before, Entries(cfg, Declared(cfg, ops), cfg.resolve(use.directory)), use.names)
  {
    var k, use, front := |ops| - 1, Last(ops), ops[..|ops| - 1];
    var i, directory := FirstUse(ops, use.directory), cfg.resolve(use.directory);
    assert Declared(cfg, ops) == Declared(cfg, front);
    if i < k {
      var entries, late := EntriesAtFirstUse(cfg, ops, use.directory), Late(cfg, ops, i, k, directory);
      EntriesThenLate(cfg, ops, i, k, directory);
      UsedIsCovered(cfg, front);
      forall e | e in late && Readable(e, use.names) ensures Covered(Recomputed(cfg, front), e.variable) {
        LateIsCovered(cfg, ops, e);
      }
      UseUnchanged(Recomputed(cfg, front), entries, late, use.names);
    } else {
      assert ops[..i] == front;
    }
  }

  /** While nothing is stale, the object selects exactly what recomputing _entries on every use would. */
  lemma CachedIsRecomputed(check: EnvironmentCheck)
    requires check.Valid() && NothingStale(check.cfg, check.ops)
    ensures check.selected == Recomputed(check.cfg, check.ops)
  {
    FrozenIsRecomputed(check.cfg, check.ops);
  }

  /** Each directory's declare() calls come before its first use(). */
  ghost predicate DeclaredBeforeUse(cfg: Config, ops: seq<Op>) {
    forall i, j :: 0 <= i < j < |ops| && ops[i].Use? && ops[j].Declare? ==>
      cfg.resolve(ops[i].directory) != cfg.resolve(ops[j].directory)
  }

  /** The order declare() asks for leaves nothing stale. */
  lemma DeclaringFirstIsEnough(cfg: Config, ops: seq<Op>)
    requires DeclaredBeforeUse(cfg, ops)
    ensures NothingStale(cfg, ops)
  {
  }

  lemma {:induction false} DeclarationsSettle(cfg: Config, ops: seq<Op>, k: nat, path: Path)
    requires DeclaredBeforeUse(cfg, ops) && k < |ops| && ops[k].Use? && ops[k].directory == path
    ensures Get(Declared(cfg, ops[..k]), cfg.resolve(path)) == Get(Declared(cfg, ops), cfg.resolve(path))
  {
    var front := ops[..|ops| - 1];
    if k == |front| {
      assert front == ops[..k];
    } else {
      assert forall i :: 0 <= i < |front| ==> front[i] == ops[i];
      DeclarationsSettle(cfg, front, k, path);
      assert front[..k] == ops[..k];
    }
  }

  // ---------------------------------------------------------------------------------------------
  // The condition is exact

  /** The same calls, except for what is declared. */
  ghost predicate SameCalls(a: seq<Op>, b: seq<Op>) {
    |a| == |b| && forall i :: 0 <= i < |a| ==> SameCall(a[i], b[i])
  }

  predicate SameCall(a: Op, b: Op) {
    if a.Use? then b == a else b.Declare? && b.directory == a.directory
  }

  /** After every call the selection is the recomputed one. */
  ghost predicate AgreesThroughout(cfg: Config, ops: seq<Op>) {
    forall n :: 0 <= n <= |ops| ==> AgreesAfter(cfg, ops, n)
  }

  ghost predicate AgreesAfter(cfg: Config, ops: seq<Op>, n: int)
    requires 0 <= n <= |ops|
  {
    Frozen(cfg, ops[..n]) == Recomputed(cfg, ops[..n])
  }

  /** Only this call declares anything. */
  ghost predicate OnlyDeclares(ops: seq<Op>, j: nat, e: Entry) {
    && j < |ops| && ops[j].Declare? && ops[j].entries == [e]
    && forall i :: 0 <= i < |ops| && i != j && ops[i].Declare? ==> ops[i].entries == []
  }

  lemma {:induction false} OnlyLate(cfg: Config, ops: seq<Op>, j: nat, e: Entry, n: nat, directory: Directory)
    requires OnlyDeclares(ops, j, e) && n <= |ops|
    ensures Get(Declared(cfg, ops[..n]), directory) ==
            if j < n && cfg.resolve(ops[j].directory) == directory then [e] else []
  {
    if n == 0 {
      assert ops[..0] == [];
    } else {
      OnlyLate(cfg, ops, j, e, n - 1, directory);
      assert ops[..n][..n - 1] == ops[..n - 1];
    }
  }

  ghost predicate Unnamed(selected: seq<Variable>, name: string) {
    forall s :: s in selected ==> s.name != name
  }

  lemma {:induction false} SelectAllUnnamed(selected: seq<Variable>, vs: seq<Variable>, name: string)
    requires Unnamed(selected, name) && Unnamed(vs, name)
    ensures Unnamed(SelectAll(selected, vs), name)
  {
    if vs == [] {
    } else {
      assert vs == vs[..|vs| - 1] + [Last(vs)];
      SelectAllUnnamed(selected, vs[..|vs| - 1], name);
    }
  }

  lemma UseUnnamed(selected: seq<Variable>, entries: seq<Entry>, names: set<string>, name: string)
    requires Unnamed(selected, name)
    requires forall e :: e in entries && Readable(e, names) ==> e.variable.name != name
    ensures Unnamed(UseEntries(selected, entries, names), name)
  {
    forall v | v in PlainVariables(entries) || v in Matching(ScopedEntries(entries), names) ensures v.name != name {
      PlainOrMatching(entries, names, v);
    }
    SelectAllUnnamed(selected, PlainVariables(entries), name);
    SelectAllUnnamed(SelectAll(selected, PlainVariables(entries)), Matching(ScopedEntries(entries), names), name);
  }

  /** The file declares no variable of this name. */
  ghost predicate NotInFile(cfg: Config, name: string) {
    forall d, e :: d in cfg.fromFile && e in cfg.fromFile[d] ==> e.variable.name != name
  }

  lemma {:induction false} InheritedUnnamed(cfg: Config, directory: Directory, name: string)
    requires NotInFile(cfg, name)
    ensures forall e :: e in Inherited(cfg.fromFile, directory) ==> e.variable.name != name
  {
    if directory == [] {
    } else {
      InheritedUnnamed(cfg, directory[..|directory| - 1], name);
    }
  }

  /** A use of the frozen declarations does not read e: another directory, an older cache entry, or other names. */
  ghost predicate Misses(cfg: Config, ops: seq<Op>, j: nat, e: Entry, m: nat)
    requires j < |ops| && m < |ops| && ops[m].Use?
  {
    || !SameDirectory(cfg, ops[m], ops[j])
    || FirstUse(ops, ops[m].directory) <= j
    || !Readable(e, ops[m].names)
  }

  lemma {:induction false} NeverSelected(cfg: Config, ops: seq<Op>, j: nat, e: Entry, n: nat)
    requires OnlyDeclares(ops, j, e) && n <= |ops| && NotInFile(cfg, e.variable.name)
    requires forall m: nat :: m < n && ops[m].Use? ==> Misses(cfg, ops, j, e, m)
    ensures Unnamed(Frozen(cfg, ops[..n]), e.variable.name)
  {
    if n == 0 {
      assert ops[..0] == [];
    } else {
      NeverSelected(cfg, ops, j, e, n - 1);
      var now := ops[..n];
      assert now[..n - 1] == ops[..n - 1] && Last(now) == ops[n - 1];
      if Last(now).Use? {
        var path := Last(now).directory;
        FirstUseOfPrefix(ops, n, path);
        var i := FirstUse(ops, path);
        assert now[..i] == ops[..i];
        OnlyLate(cfg, ops, j, e, i, cfg.resolve(path));
        InheritedUnnamed(cfg, cfg.resolve(path), e.variable.name);
        UseUnnamed(Frozen(cfg, ops[..n - 1]), EntriesAtFirstUse(cfg, now, path), Last(now).names, e.variable.name);
      }
    }
  }

  lemma FirstUseOfPrefix(ops: seq<Op>, n: nat, path: Path)
    requires 0 < n <= |ops| && ops[n - 1].Use? && ops[n - 1].directory == path
    ensures FirstUse(ops[..n], path) == FirstUse(ops, path) < n
  {
    var i, k := FirstUse(ops[..n], path), FirstUse(ops, path);
    assert ops[..n][n - 1] == ops[n - 1] && k < n && ops[..n][k] == ops[k];
    assert ops[..n][i] == ops[i];
  }

  /** What the stale use does not read: an unscoped declaration, or one scoped to a name it is the first to bring. */
  lemma StaleDeclaration(cfg: Config, ops: seq<Op>, j: int, k: int, v: Variable) returns (e: Entry)
    requires Stale(cfg, ops, j, k)
    ensures e.variable == v && Readable(e, ops[k].names)
    ensures forall m :: UsesBetween(cfg, ops, j, m, k) ==> !Readable(e, ops[m].names)
  {
    if forall m :: !UsesBetween(cfg, ops, j, m, k) {
      e := Plain(v);
    } else {
      var x :| x in ops[k].names && forall m :: UsesBetween(cfg, ops, j, m, k) ==> x !in ops[m].names;
      e := Scoped(v, {x});
      assert x in {x} * ops[k].names;
    }
  }

  /** Declaring just that makes the object miss what recomputing selects. */
  lemma UseMisses(cfg: Config, ops: seq<Op>, j: nat, k: nat, e: Entry, m: nat)
    requires j < k < |ops| && ops[k].Use? && SameDirectory(cfg, ops[j], ops[k])
    requires CachedBefore(ops, j, k) && m <= k && ops[m].Use?
    requires UsesBetween(cfg, ops, j, m, k) ==> !Readable(e, ops[m].names)
    ensures Misses(cfg, ops, j, e, m)
  {
    if SameDirectory(cfg, ops[m], ops[j]) && FirstUse(ops, ops[m].directory) > j {
      assert m > j && m != k && UsesBetween(cfg, ops, j, m, k);
    }
  }

  /** The stale use is the only one that would read the declaration, and reads the cache. */
  lemma AllMiss(cfg: Config, ops: seq<Op>, j: nat, k: nat, e: Entry)
    requires Stale(cfg, ops, j, k)
    requires forall m :: UsesBetween(cfg, ops, j, m, k) ==> !Readable(e, ops[m].names)
    ensures forall m: nat :: m < k + 1 && ops[m].Use? ==> Misses(cfg, ops, j, e, m)
  {
    forall m: nat | m < k + 1 && ops[m].Use? ensures Misses(cfg, ops, j, e, m) {
      UseMisses(cfg, ops, j, k, e, m);
    }
  }

  lemma StaleIsMissed(cfg: Config, ops: seq<Op>, j: nat, k: nat, e: Entry)
    requires Stale(cfg, ops, j, k) && OnlyDeclares(ops, j, e) && NotInFile(cfg, e.variable.name)
    requires Readable(e, ops[k].names)
    requires forall m :: UsesBetween(cfg, ops, j, m, k) ==> !Readable(e, ops[m].names)
    ensures !AgreesAfter(cfg, ops, k + 1)
  {
    AllMiss(cfg, ops, j, k, e);
    MissedDiffers(cfg, ops, j, k, e);
  }

  lemma MissedDiffers(cfg: Config, ops: seq<Op>, j: nat, k: nat, e: Entry)
    requires OnlyDeclares(ops, j, e) && NotInFile(cfg, e.variable.name)
    requires j < k < |ops| && ops[k].Use? && SameDirectory(cfg, ops[j], ops[k]) && Readable(e, ops[k].names)
    requires forall m: nat :: m < k + 1 && ops[m].Use? ==> Misses(cfg, ops, j, e, m)
    ensures !AgreesAfter(cfg, ops, k + 1)
  {
    var frozen, recomputed := Frozen(cfg, ops[..k + 1]), Recomputed(cfg, ops[..k + 1]);
    NeverSelected(cfg, ops, j, e, k + 1);
    LateIsRecomputed(cfg, ops, j, k, e);
    NamesDiffer(frozen, recomputed, e.variable.name);
  }

  lemma NamesDiffer(a: seq<Variable>, b: seq<Variable>, name: string)
    requires Unnamed(a, name) && !Unnamed(b, name)
    ensures a != b
  {
  }

  lemma CoveredIsNamed(selected: seq<Variable>, v: Variable)
    requires Covered(selected, v)
    ensures !Unnamed(selected, v.name)
  {
  }

  lemma LateIsRecomputed(cfg: Config, ops: seq<Op>, j: nat, k: nat, e: Entry)
    requires OnlyDeclares(ops, j, e) && j < k < |ops| && ops[k].Use?
    requires SameDirectory(cfg, ops[j], ops[k]) && Readable(e, ops[k].names)
    ensures !Unnamed(Recomputed(cfg, ops[..k + 1]), e.variable.name)
  {
    var now := ops[..k + 1];
    assert now[..k] == ops[..k] && now[k] == ops[k];
    OnlyLate(cfg, ops, j, e, k, cfg.resolve(ops[k].directory));
    assert ReadBy(cfg, now, k, e);
    UsedIsCovered(cfg, now);
    CoveredIsNamed(Recomputed(cfg, now), e.variable);
  }

  function Refilled(ops: seq<Op>, j: nat, e: Entry): (filled: seq<Op>)
    ensures |filled| == |ops|
  {
    seq(|ops|, i requires 0 <= i < |ops| =>
      if ops[i].Use? then ops[i] else Declare(ops[i].directory, if i == j then [e] else []))
  }

  lemma SameCallsSameStale(cfg: Config, a: seq<Op>, b: seq<Op>, j: int, k: int)
    requires SameCalls(a, b) && Stale(cfg, a, j, k)
    ensures Stale(cfg, b, j, k)
    ensures forall m :: UsesBetween(cfg, b, j, m, k) <==> UsesBetween(cfg, a, j, m, k)
  {
    assert forall i :: 0 <= i < |a| ==> SameCall(a[i], b[i]);
    assert forall m :: UsesBetween(cfg, b, j, m, k) <==> UsesBetween(cfg, a, j, m, k);
    var i :| 0 <= i < j && a[i].Use? && a[i].directory == a[k].directory;
    assert SameCall(a[i], b[i]) && SameCall(a[j], b[j]) && SameCall(a[k], b[k]);
  }

  /** Wherever a use is stale, some declarations in the same calls make the object disagree right there. */
  lemma StaleDisagrees(cfg: Config, ops: seq<Op>, j: int, k: int, v: Variable) returns (filled: seq<Op>)
    requires Stale(cfg, ops, j, k) && NotInFile(cfg, v.name)
    ensures SameCalls(ops, filled) && !AgreesAfter(cfg, filled, k + 1)
  {
    var e := StaleDeclaration(cfg, ops, j, k, v);
    filled := Refilled(ops, j, e);
    SameCallsSameStale(cfg, ops, filled, j, k);
    forall m | UsesBetween(cfg, filled, j, m, k) ensures !Readable(e, filled[m].names) {
      assert UsesBetween(cfg, ops, j, m, k);
    }
    StaleIsMissed(cfg, filled, j, k, e);
  }

  lemma {:induction false} LongerThanAll(names: set<string>) returns (limit: nat)
    ensures forall name :: name in names ==> |name| <= limit
    decreases names
  {
    if names == {} {
      limit := 0;
    } else {
      var name :| name in names;
      limit := LongerThanAll(names - {name});
      if |name| > limit {
        limit := |name|;
      }
    }
  }

  /** There is always a name the file does not declare. */
  lemma NewName(cfg: Config) returns (name: string)
    ensures NotInFile(cfg, name)
  {
    var names := set d, e | d in cfg.fromFile && e in cfg.fromFile[d] :: e.variable.name;
    var limit := LongerThanAll(names);
    name := seq(limit + 1, i => 'X');
    forall d, e | d in cfg.fromFile && e in cfg.fromFile[d] ensures e.variable.name != name {
      assert e.variable.name in names;
    }
  }

  /**
   A series of calls makes the object agree with recomputing after every one of them, whatever it
   declares, exactly when none of its uses is stale.
   */
  lemma AgreesExactlyWithoutStaleUses(cfg: Config, ops: seq<Op>)
    ensures (forall filled :: SameCalls(ops, filled) ==> AgreesThroughout(cfg, filled)) <==>
            (forall j, k :: !Stale(cfg, ops, j, k))
  {
    if forall j, k :: !Stale(cfg, ops, j, k) {
      forall filled, n | SameCalls(ops, filled) && 0 <= n <= |filled| ensures AgreesAfter(cfg, filled, n) {
        forall j, k ensures !Stale(cfg, filled[..n], j, k) {
          if Stale(cfg, filled[..n], j, k) {
            StaleInLonger(cfg, filled[..n], filled, j, k);
            assert SameCalls(filled, ops);
            SameCallsSameStale(cfg, filled, ops, j, k);
          }
        }
        FrozenIsRecomputed(cfg, filled[..n]);
      }
    } else {
      var j, k :| Stale(cfg, ops, j, k);
      var name := NewName(cfg);
      var filled := StaleDisagrees(cfg, ops, j, k, Variable(name, "", false, None));
      assert !AgreesThroughout(cfg, filled);
    }
  }

  lemma OneEntry(e: Entry)
    ensures PlainVariables([e]) == if e.Plain? then [e.variable] else []
    ensures ScopedEntries([e]) == if e.Scoped? then [e] else []
  {
    assert [e][..0] == [];
  }

  lemma OnePlain(v: Variable)
    ensures UseEntries([], [Plain(v)], {}) == [v]
  {
    OneEntry(Plain(v));
    assert [v][..0] == [];
    assert SelectAll([], [v]) == Select([], v);
  }

  lemma UsedInVain(cfg: Config, path: Path)
    requires cfg.fromFile == map[]
    ensures var ops := [] + [Use(path, {})];
            Declared(cfg, ops) == map[] && Frozen(cfg, ops) == [] && Recomputed(cfg, ops) == []
  {
    Unfolds(cfg, [], Use(path, {}));
    InheritedNothing(cfg.resolve(path));
    assert ([] + [Use(path, {})])[..0] == [];
    assert FirstUse([] + [Use(path, {})], path) == 0;
    NothingToUse();
  }

  lemma ThenDeclared(cfg: Config, path: Path, v: Variable)
    requires cfg.fromFile == map[]
    ensures var ops := [] + [Use(path, {})] + [Declare(path, [Plain(v)])];
            && Entries(cfg, Declared(cfg, ops), cfg.resolve(path)) == [Plain(v)]
            && Frozen(cfg, ops) == [] && Recomputed(cfg, ops) == []
  {
    UsedInVain(cfg, path);
    Unfolds(cfg, [] + [Use(path, {})], Declare(path, [Plain(v)]));
    InheritedNothing(cfg.resolve(path));
    assert [] + [Plain(v)] == [Plain(v)];
  }

  lemma FirstOfThree(path: Path, d: Op)
    requires d.Declare?
    ensures FirstUse([] + [Use(path, {})] + [d] + [Use(path, {})], path) == 0
  {
    assert ([] + [Use(path, {})] + [d] + [Use(path, {})])[0] == Use(path, {});
  }

  /** The smallest stale use: a path used again after a declaration of its directory misses it. */
  lemma LateDeclarationIsMissed(cfg: Config, path: Path, v: Variable)
    requires cfg.fromFile == map[]
    ensures var ops := [Use(path, {}), Declare(path, [Plain(v)]), Use(path, {})];
            Frozen(cfg, ops) == [] && Recomputed(cfg, ops) == [v]
  {
    var u, d := Use(path, {}), Declare(path, [Plain(v)]);
    var before := [] + [u] + [d];
    ThenDeclared(cfg, path, v);
    Unfolds(cfg, before, u);
    FirstOfThree(path, d);
    InheritedNothing(cfg.resolve(path));
    assert (before + [u])[..0] == [];
    NothingToUse();
    OnePlain(v);
    assert before + [u] == [u, d, u];
  }

  /** What one more operation does, to either selection. */
  lemma Unfolds(cfg: Config, ops: seq<Op>, op: Op)
    ensures op.Declare? ==> Declared(cfg, ops + [op]) == AddDeclared(cfg, Declared(cfg, ops), op.directory, op.entries)
    ensures op.Use? ==> Declared(cfg, ops + [op]) == Declared(cfg, ops)
    ensures op.Declare? ==>
            Frozen(cfg, ops + [op]) == Frozen(cfg, ops) && Recomputed(cfg, ops + [op]) == Recomputed(cfg, ops)
    ensures op.Use? ==>
              && Frozen(cfg, ops + [op]) ==
                 UseEntries(Frozen(cfg, ops), EntriesAtFirstUse(cfg, ops + [op], op.directory), op.names)
              && Recomputed(cfg, ops + [op]) ==
                 UseEntries(Recomputed(cfg, ops),
                            Entries(cfg, Declared(cfg, ops + [op]), cfg.resolve(op.directory)), op.names)
  {
  }

  lemma NothingToUse()
    ensures UseEntries([], [], {}) == []
  {
  }

  lemma {:induction false} InheritedNothing(directory: Directory)
    ensures Inherited(map[], directory) == []
  {
    if directory == [] {
    } else {
      InheritedNothing(directory[..|directory| - 1]);
    }
  }

  // ---------------------------------------------------------------------------------------------
  // What is selected, independently of the order of uses

  /** The file declares the entry for the directory or one above it, or a call declares it for the directory itself. */
  ghost predicate DeclaredFor(cfg: Config, ops: seq<Op>, directory: Directory, e: Entry) {
    || (exists above :: above <= directory && above in cfg.fromFile && e in cfg.fromFile[above])
    || (exists op :: op in ops && op.Declare? && cfg.resolve(op.directory) == directory && e in op.entries)
  }

  /** Some recorded use is of a directory the entry is declared for and, where it is scoped, of one of its names. */
  ghost predicate Applies(cfg: Config, ops: seq<Op>, v: Variable) {
    exists use, e :: use in ops && use.Use? && DeclaredFor(cfg, ops, cfg.resolve(use.directory), e)
                     && Readable(e, use.names) && e.variable == v
  }

  lemma {:induction false} InheritedSpec(fromFile: map<Directory, seq<Entry>>, directory: Directory, e: Entry)
    ensures e in Inherited(fromFile, directory) <==>
            exists above :: above <= directory && above in fromFile && e in fromFile[above]
  {
    if directory == [] {
      assert [] <= directory;
    } else {
      var parent := directory[..|directory| - 1];
      InheritedSpec(fromFile, parent, e);
      assert forall above :: above in fromFile ==> (above <= directory <==> above == directory || above <= parent);
    }
  }

  lemma DeclaredSpec(cfg: Config, ops: seq<Op>, directory: Directory, e: Entry)
    ensures e in Get(Declared(cfg, ops), directory) <==>
            exists op :: op in ops && op.Declare? && cfg.resolve(op.directory) == directory && e in op.entries
  {
    assert ops[..|ops|] == ops;
    if e in Get(Declared(cfg, ops), directory) {
      DeclaredThenLate(cfg, ops, 0, |ops|, directory);
      var j := LateIsDeclared(cfg, ops, 0, |ops|, directory, e);
      assert ops[j] in ops;
    }
    if op :| op in ops && op.Declare? && cfg.resolve(op.directory) == directory && e in op.entries {
      var j :| 0 <= j < |ops| && ops[j] == op;
      DeclaredIsHeld(cfg, ops, j, |ops|, e);
    }
  }

  lemma ReachedApplies(cfg: Config, ops: seq<Op>, v: Variable)
    ensures Reached(cfg, ops, v) <==> Applies(cfg, ops, v)
  {
    forall use, e | use in ops && use.Use?
      ensures e in Entries(cfg, Declared(cfg, ops), cfg.resolve(use.directory)) <==>
              DeclaredFor(cfg, ops, cfg.resolve(use.directory), e)
    {
      InheritedSpec(cfg.fromFile, cfg.resolve(use.directory), e);
      DeclaredSpec(cfg, ops, cfg.resolve(use.directory), e);
    }
  }

  /** The declaration is read by a use of this path with these names. */
  ghost predicate InEntries(cfg: Config, declared: map<Directory, seq<Entry>>, use: Op, v: Variable)
    requires use.Use?
  {
    exists e :: e in Entries(cfg, declared, cfg.resolve(use.directory)) && e.variable == v
                && (e.Scoped? ==> e.usedBy * use.names != {})
  }

  /** Some recorded use brings the declaration in. */
  ghost predicate Reached(cfg: Config, ops: seq<Op>, v: Variable) {
    exists use :: use in ops && use.Use? && InEntries(cfg, Declared(cfg, ops), use, v)
  }

  /** Selected holds one declaration per name of those given, a required one wherever there is one. */
  ghost predicate Represents(selected: seq<Variable>, declarations: iset<Variable>) {
    && UniqueNames(selected)
    && (forall s :: s in selected ==> s in declarations)
    && (forall v :: v in declarations ==> Covered(selected, v))
  }

  ghost function Among(vs: seq<Variable>): iset<Variable> {
    iset v | v in vs
  }

  lemma SelectRepresents(selected: seq<Variable>, declarations: iset<Variable>, v: Variable)
    requires Represents(selected, declarations)
    ensures Represents(Select(selected, v), declarations + iset{v})
  {
    forall w | w in declarations + iset{v} ensures Covered(Select(selected, v), w) {
      SelectKeepsCover(selected, v, w);
    }
    SelectKeepsCover(selected, v, v);
  }

  lemma {:induction false} SelectAllRepresents(selected: seq<Variable>, declarations: iset<Variable>, vs: seq<Variable>)
    requires Represents(selected, declarations)
    ensures Represents(SelectAll(selected, vs), declarations + Among(vs))
  {
    if vs == [] {
      assert declarations + Among(vs) == declarations;
    } else {
      var front := vs[..|vs| - 1];
      assert vs == front + [Last(vs)];
      SelectAllRepresents(selected, declarations, front);
      SelectRepresents(SelectAll(selected, front), declarations + Among(front), Last(vs));
      assert declarations + Among(vs) == declarations + Among(front) + iset{Last(vs)};
    }
  }

  lemma {:induction false} PlainOrMatching(entries: seq<Entry>, names: set<string>, v: Variable)
    ensures v in PlainVariables(entries) || v in Matching(ScopedEntries(entries), names) <==>
            exists e :: e in entries && e.variable == v && (e.Scoped? ==> e.usedBy * names != {})
  {
    if entries == [] {
    } else {
      var front := entries[..|entries| - 1];
      assert entries == front + [Last(entries)];
      PlainOrMatching(front, names, v);
      if Last(entries).Scoped? {
        assert ScopedEntries(entries)[..|ScopedEntries(front)|] == ScopedEntries(front);
      } else {
        assert ScopedEntries(entries) == ScopedEntries(front);
      }
    }
  }

  lemma AppliesGrows(cfg: Config, ops: seq<Op>, v: Variable)
    requires DeclaredBeforeUse(cfg, ops) && ops != []
    ensures Reached(cfg, ops, v) <==>
            Reached(cfg, ops[..|ops| - 1], v) || (Last(ops).Use? && InEntries(cfg, Declared(cfg, ops), Last(ops), v))
  {
  }

  lemma UseRepresents(selected: seq<Variable>, declarations: iset<Variable>, entries: seq<Entry>, names: set<string>)
    requires Represents(selected, declarations)
    ensures Represents(UseEntries(selected, entries, names),
              declarations + Among(PlainVariables(entries)) + Among(Matching(ScopedEntries(entries), names)))
  {
    var plain := PlainVariables(entries);
    SelectAllRepresents(selected, declarations, plain);
    SelectAllRepresents(SelectAll(selected, plain), declarations + Among(plain),
                        Matching(ScopedEntries(entries), names));
  }

  lemma {:induction false} RecomputedRepresents(cfg: Config, ops: seq<Op>)
    requires DeclaredBeforeUse(cfg, ops)
    ensures Represents(Recomputed(cfg, ops), Applying(cfg, ops))
  {
    if ops == [] {
    } else {
      var front := ops[..|ops| - 1];
      assert forall i :: 0 <= i < |front| ==> front[i] == ops[i];
      RecomputedRepresents(cfg, front);
      if Last(ops).Declare? {
        DeclareAppliesNothing(cfg, ops);
      } else {
        var use := Last(ops);
        UseRepresents(Recomputed(cfg, front), Applying(cfg, front),
                      Entries(cfg, Declared(cfg, ops), cfg.resolve(use.directory)), use.names);
        UseApplies(cfg, ops);
      }
    }
  }

  /** The declarations the uses bring in. */
  ghost function Applying(cfg: Config, ops: seq<Op>): iset<Variable> {
    iset v | Reached(cfg, ops, v)
  }

  lemma DeclareAppliesNothing(cfg: Config, ops: seq<Op>)
    requires DeclaredBeforeUse(cfg, ops) && ops != [] && Last(ops).Declare?
    ensures Applying(cfg, ops) == Applying(cfg, ops[..|ops| - 1])
  {
  }

  lemma UseApplies(cfg: Config, ops: seq<Op>)
    requires DeclaredBeforeUse(cfg, ops) && ops != [] && Last(ops).Use?
    ensures var use := Last(ops);
            var entries := Entries(cfg, Declared(cfg, ops), cfg.resolve(use.directory));
            Applying(cfg, ops) == Applying(cfg, ops[..|ops| - 1])
              + Among(PlainVariables(entries)) + Among(Matching(ScopedEntries(entries), use.names))
  {
    var use := Last(ops);
    var entries := Entries(cfg, Declared(cfg, ops), cfg.resolve(use.directory));
    forall v ensures v in Applying(cfg, ops) <==>
                     v in Applying(cfg, ops[..|ops| - 1]) + Among(PlainVariables(entries))
                          + Among(Matching(ScopedEntries(entries), use.names)) {
      AppliesGrows(cfg, ops, v);
      PlainOrMatching(entries, use.names, v);
    }
  }

  ghost function NamesOf(selected: seq<Variable>): set<string> {
    set s | s in selected :: s.name
  }

  ghost predicate RequiredIn(selected: seq<Variable>, name: string) {
    exists s :: s in selected && s.name == name && s.required
  }

  /**
   The selected names are those of the applicable declarations, each value is one of them, and a
   name is required exactly when some applicable declaration of it is.
   */
  lemma SelectionSpec(cfg: Config, ops: seq<Op>)
    requires DeclaredBeforeUse(cfg, ops)
    ensures var selected := Recomputed(cfg, ops);
            && UniqueNames(selected)
            && (forall s :: s in selected ==> Applies(cfg, ops, s))
            && (forall name :: name in NamesOf(selected) <==> exists v :: Applies(cfg, ops, v) && v.name == name)
            && (forall name :: RequiredIn(selected, name) <==>
                  exists v :: Applies(cfg, ops, v) && v.name == name && v.required)
  {
    RecomputedRepresents(cfg, ops);
    var selected := Recomputed(cfg, ops);
    var applicable := Applying(cfg, ops);
    forall v | Applies(cfg, ops, v)
      ensures v.name in NamesOf(selected) && (v.required ==> RequiredIn(selected, v.name))
    {
      ReachedApplies(cfg, ops, v);
      assert v in applicable && Covered(selected, v);
      var i :| 0 <= i < |selected| && selected[i].name == v.name && (v.required ==> selected[i].required);
      assert selected[i] in selected;
    }
    forall s | s in selected ensures Applies(cfg, ops, s) {
      assert s in applicable;
      ReachedApplies(cfg, ops, s);
    }
  }

  // ---------------------------------------------------------------------------------------------
  // missing()

  predicate NameLeq(a: Variable, b: Variable) { StrLeq(a.name, b.name) }

  /** deduplicate: a dictionary by name, so the last declaration of a name takes the first one's place. */
  function Deduplicate(vs: seq<Variable>): seq<Variable> {
    if vs == [] then []
    else
      var before := Deduplicate(vs[..|vs| - 1]);
      var i := Find(before, Last(vs).name);
      if i < 0 then before + [Last(vs)] else before[i := Last(vs)]
  }

  function Unset(vs: seq<Variable>, isSet: string -> bool): seq<Variable> {
    if vs == [] then []
    else
      Unset(vs[..|vs| - 1], isSet) + if Last(vs).required && !isSet(Last(vs).name) then [Last(vs)] else []
  }

  function Missing(vs: seq<Variable>, isSet: string -> bool): seq<Variable> {
    Sort(NameLeq, Unset(Deduplicate(vs), isSet))
  }

  lemma {:induction false} DeduplicateUnique(vs: seq<Variable>)
    requires UniqueNames(vs)
    ensures Deduplicate(vs) == vs
  {
    if vs == [] {
    } else {
      var front := vs[..|vs| - 1];
      DeduplicateUnique(front);
      assert vs == front + [Last(vs)];
    }
  }

  lemma {:induction false} UnsetSpec(vs: seq<Variable>, isSet: string -> bool)
    requires UniqueNames(vs)
    ensures UniqueNames(Unset(vs, isSet))
    ensures forall v :: v in Unset(vs, isSet) <==> v in vs && v.required && !isSet(v.name)
  {
    if vs == [] {
    } else {
      var front := vs[..|vs| - 1];
      assert vs == front + [Last(vs)];
      UnsetSpec(front, isSet);
      if Last(vs).required && !isSet(Last(vs).name) {
        forall v | v in Unset(front, isSet) ensures v.name != Last(vs).name {
          var i :| 0 <= i < |front| && front[i] == v;
          assert vs[i] == v;
        }
      }
    }
  }

  lemma NameOrder()
    ensures TotalPreorder(NameLeq)
  {
    forall x, y ensures NameLeq(x, y) || NameLeq(y, x) { StrLeqTotal(x.name, y.name); }
    forall x, y, z | NameLeq(x, y) && NameLeq(y, z) ensures NameLeq(x, z) {
      StrLeqTransitive(x.name, y.name, z.name);
    }
  }

  function Names(vs: seq<Variable>): seq<string> {
    seq(|vs|, i requires 0 <= i < |vs| => vs[i].name)
  }

  /** The last declaration of a name. */
  function LastOf(vs: seq<Variable>, name: string): Option<Variable> {
    if vs == [] then None
    else if Last(vs).name == name then Some(Last(vs))
    else LastOf(vs[..|vs| - 1], name)
  }

  /** Deduplicating leaves one declaration of each name, the last. */
  lemma {:induction false} DeduplicateSpec(vs: seq<Variable>)
    ensures UniqueNames(Deduplicate(vs))
    ensures forall v :: v in Deduplicate(vs) <==> LastOf(vs, v.name) == Some(v)
  {
    if vs == [] {
    } else {
      var before, last := Deduplicate(vs[..|vs| - 1]), Last(vs);
      DeduplicateSpec(vs[..|vs| - 1]);
      Replaced(before, last);
    }
  }

  lemma Replaced(before: seq<Variable>, last: Variable)
    requires UniqueNames(before)
    ensures var i := Find(before, last.name);
            var after := if i < 0 then before + [last] else before[i := last];
            UniqueNames(after) && forall v :: v in after <==> v == last || (v in before && v.name != last.name)
  {
    var i := Find(before, last.name);
    var after := if i < 0 then before + [last] else before[i := last];
    forall v ensures v in after <==> v == last || (v in before && v.name != last.name) {
      if v in before && v.name != last.name {
        var k :| 0 <= k < |before| && before[k] == v;
        assert after[k] == v;
      }
      assert after[if i < 0 then |before| else i] == last;
    }
  }

  /** missing_required lists by name those whose last declaration is required, where they are unset. */
  lemma MissingRequiredSpec(vs: seq<Variable>, isSet: string -> bool)
    ensures var names := Names(Missing(vs, isSet));
            && SortedBy(StrLeq, names) && Distinct(names)
            && (forall name :: name in names <==>
                  LastOf(vs, name).Some? && LastOf(vs, name).value.required && !isSet(name))
  {
    var unique := Deduplicate(vs);
    DeduplicateSpec(vs);
    UnsetSpec(unique, isSet);
    NameOrder();
    var unset := Unset(unique, isSet);
    SortSpec(NameLeq, unset);
    OrderedNames(Missing(vs, isSet), unset);
    forall name ensures name in Names(Missing(vs, isSet)) <==>
                        LastOf(vs, name).Some? && LastOf(vs, name).value.required && !isSet(name) {
      NameOfSome(Missing(vs, isSet), name);
      LastOfName(vs, name);
      if LastOf(vs, name).Some? && LastOf(vs, name).value.required && !isSet(name) {
        assert LastOf(vs, name).value in unset;
      }
    }
  }

  lemma {:induction false} LastOfName(vs: seq<Variable>, name: string)
    ensures LastOf(vs, name).Some? ==> LastOf(vs, name).value.name == name
  {
    if vs == [] || Last(vs).name == name {
    } else {
      LastOfName(vs[..|vs| - 1], name);
    }
  }

  /** missing() lists, by name, exactly the selected names that are required and unset. */
  lemma MissingSpec(selected: seq<Variable>, isSet: string -> bool)
    requires UniqueNames(selected)
    ensures var names := Names(Missing(selected, isSet));
            && SortedBy(StrLeq, names) && Distinct(names)
            && (forall name :: name in names <==> RequiredIn(selected, name) && !isSet(name))
  {
    MissingRequiredSpec(selected, isSet);
    DeduplicateSpec(selected);
    DeduplicateUnique(selected);
    forall name ensures RequiredIn(selected, name) <==>
                        LastOf(selected, name).Some? && LastOf(selected, name).value.required {
      LastOfName(selected, name);
    }
  }

  lemma OrderedNames(missing: seq<Variable>, unset: seq<Variable>)
    requires SortedBy(NameLeq, missing) && UniqueNames(unset)
    requires Distinct(missing) && forall v :: v in missing ==> v in unset
    ensures SortedBy(StrLeq, Names(missing)) && Distinct(Names(missing))
  {
    forall i, j | 0 <= i < j < |missing|
      ensures StrLeq(Names(missing)[i], Names(missing)[j]) && Names(missing)[i] != Names(missing)[j]
    {
      assert NameLeq(missing[i], missing[j]);
      assert missing[i] in unset && missing[j] in unset && missing[i] != missing[j];
    }
  }

  lemma NameOfSome(vs: seq<Variable>, name: string)
    ensures name in Names(vs) <==> exists v :: v in vs && v.name == name
  {
    if v :| v in vs && v.name == name {
      var i :| 0 <= i < |vs| && vs[i] == v;
      assert Names(vs)[i] == name;
    }
  }

  /**
   Two histories with the same declarations and the same set of uses select the same names with the
   same required flags, and report the same missing names, in whatever order the uses came.
   */
  lemma OrderOfUsesDoesNotMatter(cfg: Config, a: seq<Op>, b: seq<Op>, isSet: string -> bool)
    requires DeclaredBeforeUse(cfg, a) && DeclaredBeforeUse(cfg, b)
    requires Declared(cfg, a) == Declared(cfg, b)
    requires forall use: Op :: use.Use? ==> (use in a <==> use in b)
    ensures var s, t := Recomputed(cfg, a), Recomputed(cfg, b);
            && NamesOf(s) == NamesOf(t)
            && (forall name :: RequiredIn(s, name) <==> RequiredIn(t, name))
            && Names(Missing(s, isSet)) == Names(Missing(t, isSet))
  {
    SelectionSpec(cfg, a);
    SelectionSpec(cfg, b);
    var s, t := Recomputed(cfg, a), Recomputed(cfg, b);
    forall v ensures Applies(cfg, a, v) <==> Applies(cfg, b, v) {
      ReachedApplies(cfg, a, v);
      ReachedApplies(cfg, b, v);
    }
    MissingSpec(s, isSet);
    MissingSpec(t, isSet);
    assert NamesOf(s) == NamesOf(t);
    var m, n := Names(Missing(s, isSet)), Names(Missing(t, isSet));
    forall x, y | StrLeq(x, y) && StrLeq(y, x) ensures x == y { StrLeqTotal(x, y); }
    SortedUnique(StrLeq, m, n);
  }

  lemma MissingAreSelected(selected: seq<Variable>, isSet: string -> bool)
    requires UniqueNames(selected)
    ensures forall v :: v in Missing(selected, isSet) ==> v in selected
  {
    DeduplicateUnique(selected);
    UnsetSpec(selected, isSet);
    NameOrder();
    SortSpec(NameLeq, Unset(selected, isSet));
  }

  /** What the object has selected, when each directory was declared before it was used. */
  lemma SelectsWhatApplies(check: EnvironmentCheck)
    requires check.Valid() && DeclaredBeforeUse(check.cfg, check.ops)
    ensures UniqueNames(check.selected)
    ensures forall s :: s in check.selected ==> Applies(check.cfg, check.ops, s)
    ensures forall name :: name in NamesOf(check.selected) <==>
                           exists v :: Applies(check.cfg, check.ops, v) && v.name == name
    ensures forall name :: RequiredIn(check.selected, name) <==>
                           exists v :: Applies(check.cfg, check.ops, v) && v.name == name && v.required
  {
    DeclaringFirstIsEnough(check.cfg, check.ops);
    CachedIsRecomputed(check);
    SelectionSpec(check.cfg, check.ops);
  }

  /** Two objects told the same declarations and then of the same uses, in any order, select and miss the same. */
  lemma ChecksAgree(a: EnvironmentCheck, b: EnvironmentCheck, isSet: string -> bool)
    requires a.Valid() && b.Valid() && a.cfg == b.cfg && a.declared == b.declared
    requires DeclaredBeforeUse(a.cfg, a.ops) && DeclaredBeforeUse(b.cfg, b.ops)
    requires forall use: Op :: use.Use? ==> (use in a.ops <==> use in b.ops)
    ensures NamesOf(a.selected) == NamesOf(b.selected)
    ensures forall name :: RequiredIn(a.selected, name) <==> RequiredIn(b.selected, name)
    ensures Names(Missing(a.selected, isSet)) == Names(Missing(b.selected, isSet))
  {
    DeclaringFirstIsEnough(a.cfg, a.ops);
    DeclaringFirstIsEnough(b.cfg, b.ops);
    CachedIsRecomputed(a);
    CachedIsRecomputed(b);
    OrderOfUsesDoesNotMatter(a.cfg, a.ops, b.ops, isSet);
  }
}
