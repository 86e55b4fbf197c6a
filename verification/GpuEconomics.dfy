/**
 The table of GPU power and cost defaults: names and aliases that must each name one chip, lookup by
 a normalised name, and the update from fetched figures, applied to the table in place.
 */
module GpuEconomics {
  import opened Common
  import opened Text

  const DEFAULT_HOST_WATTS_PER_GPU: real := 350.0
  const DEFAULT_PUE: real := 1.3
  const ESTIMATED_POWER: string := "estimate: (TDP + host share) x PUE"

  datatype Gpu = Gpu(
    chipLabel: string,
    vendor: string,
    tdp: real,
    allIn: real,
    owningCost: Option<real>,
    rentalCost: Option<real>,
    powerSource: string,
    costSource: string,
    aliases: seq<string>)

  /** One row: the key and its chip. A table is a dictionary in insertion order. */
  datatype Row = Row(key: string, gpu: Gpu) {
    predicate Answers(name: string) { name == key || name in gpu.aliases }
  }

  function EstimateAllIn(tdp: real): real {
    (tdp + DEFAULT_HOST_WATTS_PER_GPU) * DEFAULT_PUE
  }

  // ---------------------------------------------------------------------------------------------
  // Names

  function Lower(c: char): char {
    if 'A' <= c <= 'Z' then (c as int + 32) as char else c
  }

  predicate IsSlugChar(c: char) { 'a' <= c <= 'z' || IsDigit(c) }

  /** Lower-case, with each run of other characters as one dash, given whether a dash has just been written. */
  function Dashed(s: string, afterDash: bool): string {
    if s == "" then ""
    else if IsSlugChar(Lower(s[0])) then [Lower(s[0])] + Dashed(s[1..], false)
    else if afterDash then Dashed(s[1..], true)
    else "-" + Dashed(s[1..], true)
  }

  function StripDashes(s: string): string {
    if s != "" && s[0] == '-' then StripDashes(s[1..])
    else if s != "" && Last(s) == '-' then StripDashes(s[..|s| - 1])
    else s
  }

  function WithoutVendor(s: string): string {
    if "nvidia-" <= s then s[7..] else if "amd-" <= s then s[4..] else s
  }

  /** The name in lower case with single dashes, its vendor still there. */
  function Slug(name: string): string {
    StripDashes(Dashed(name, false))
  }

  function Normalise(name: string): string {
    WithoutVendor(Slug(name))
  }

  predicate IsNameChar(c: char) { IsSlugChar(c) || c == '-' }

  /** Only such characters, and dashes one at a time, none first when one stands before it. */
  ghost predicate Collapsed(s: string, afterDash: bool) {
    && (forall i :: 0 <= i < |s| ==> IsNameChar(s[i]))
    && (forall i :: 0 < i < |s| ==> !(s[i] == '-' && s[i - 1] == '-'))
    && (afterDash && s != "" ==> s[0] != '-')
  }

  /** Lower-case letters, digits and single dashes between them. */
  ghost predicate Canonical(s: string) {
    Collapsed(s, true) && (s != "" ==> Last(s) != '-')
  }

  predicate NamesVendor(s: string) {
    "nvidia-" <= s || "amd-" <= s
  }

  lemma {:induction false} DashedCollapses(s: string, afterDash: bool)
    ensures Collapsed(Dashed(s, afterDash), afterDash)
    decreases |s|
  {
    if s == "" {
    } else {
      DashedCollapses(s[1..], false);
      DashedCollapses(s[1..], true);
    }
  }

  lemma {:induction false} DashedKeeps(s: string, afterDash: bool)
    requires Collapsed(s, afterDash)
    ensures Dashed(s, afterDash) == s
    decreases |s|
  {
    if s == "" {
    } else {
      assert s == [s[0]] + s[1..];
      assert IsNameChar(s[0]);
      DashedKeeps(s[1..], s[0] == '-');
    }
  }

  lemma {:induction false} StrippedIsCanonical(s: string)
    requires Collapsed(s, false)
    ensures Canonical(StripDashes(s))
    decreases |s|
  {
    if s != "" && s[0] == '-' {
      StrippedIsCanonical(s[1..]);
    } else if s != "" && Last(s) == '-' {
      StrippedIsCanonical(s[..|s| - 1]);
    }
  }

  lemma WithoutVendorIsCanonical(s: string)
    requires Canonical(s)
    ensures Canonical(WithoutVendor(s))
  {
    var t := WithoutVendor(s);
    var k := |s| - |t|;
    assert "nvidia-"[6] == '-' && "amd-"[3] == '-';
    assert k > 0 ==> s[k - 1] == '-';
    assert forall i :: 0 <= i < |t| ==> t[i] == s[k + i];
  }

  /** A normalised name is canonical, and normalising a canonical name only drops a vendor. */
  lemma NormaliseSpec(name: string)
    ensures Canonical(Normalise(name))
    ensures Canonical(name) ==> Normalise(name) == WithoutVendor(name)
  {
    DashedCollapses(name, false);
    StrippedIsCanonical(Dashed(name, false));
    WithoutVendorIsCanonical(Slug(name));
    if Canonical(name) {
      CanonicalIsSlug(name);
    }
  }

  lemma CanonicalIsSlug(name: string)
    requires Canonical(name)
    ensures Slug(name) == name
  {
    DashedKeeps(name, false);
  }

  lemma VendorGoes(s: string)
    ensures WithoutVendor(s) == s <==> !NamesVendor(s)
  {
  }

  /** The loader's check accepts exactly the canonical names that do not start with a vendor. */
  lemma KeysAccepted(key: string)
    ensures Normalise(key) == key <==> Canonical(key) && !NamesVendor(key)
  {
    NormaliseSpec(key);
    VendorGoes(key);
  }

  /** The name starts with a vendor, and so does what is left without it. */
  predicate NamesVendorTwice(name: string) {
    NamesVendor(Slug(name)) && NamesVendor(WithoutVendor(Slug(name)))
  }

  /** Normalising again changes a name exactly when it starts with a vendor twice. */
  lemma NormalisingTwice(name: string)
    ensures Normalise(Normalise(name)) == Normalise(name) <==> !NamesVendorTwice(name)
  {
    NormaliseSpec(name);
    KeysAccepted(Normalise(name));
    VendorGoes(Slug(name));
  }

  lemma VendorFirst(rest: string)
    requires Canonical(rest) && rest != ""
    ensures Canonical("amd-" + rest) && WithoutVendor("amd-" + rest) == rest
  {
    var s := "amd-" + rest;
    assert s[4..] == rest;
    forall i | 0 <= i < |s| ensures IsNameChar(s[i]) && (i > 0 ==> !(s[i] == '-' && s[i - 1] == '-')) {
      assert i >= 4 ==> s[i] == rest[i - 4];
      assert i > 4 ==> s[i - 1] == rest[i - 5];
    }
  }

  lemma NvidiaFirst(rest: string)
    requires Canonical(rest) && rest != ""
    ensures Canonical("nvidia-" + rest)
  {
    var s := "nvidia-" + rest;
    forall i | 0 <= i < |s| ensures IsNameChar(s[i]) && (i > 0 ==> !(s[i] == '-' && s[i - 1] == '-')) {
      assert i >= 7 ==> s[i] == rest[i - 7];
      assert i > 7 ==> s[i - 1] == rest[i - 8];
    }
  }

  /** Such names exist. */
  lemma VendorTwice(rest: string)
    requires Canonical(rest) && rest != ""
    ensures NamesVendorTwice("amd-" + ("amd-" + rest))
    ensures Normalise("amd-" + ("amd-" + rest)) == "amd-" + rest && NamesVendor("amd-" + rest)
  {
    VendorFirst(rest);
    VendorFirst("amd-" + rest);
    NormaliseSpec("amd-" + ("amd-" + rest));
    CanonicalIsSlug("amd-" + ("amd-" + rest));
  }

  // ---------------------------------------------------------------------------------------------
  // Spellings of a name

  /** The same digit, or the same letter in either case. */
  predicate SameLetter(small: char, c: char) {
    IsSlugChar(small) && (c == small || ('A' <= c <= 'Z' && c as int + 'a' as int == small as int + 'A' as int))
  }

  predicate IsSeparator(c: char) { !IsLetter(c) && !IsDigit(c) }

  ghost predicate Separates(s: string) {
    forall i :: 0 <= i < |s| ==> IsSeparator(s[i])
  }

  /** The text has each letter of the name in either case, and some other characters for each dash. */
  ghost predicate Spells(text: string, name: string)
    decreases name
  {
    if name == "" then text == ""
    else if name[0] == '-' then
      exists k :: 0 < k <= |text| && Separates(text[..k]) && Spells(text[k..], name[1..])
    else text != "" && SameLetter(name[0], text[0]) && Spells(text[1..], name[1..])
  }

  /** So does what the text has between other characters at either end. */
  ghost predicate SpellsWithin(text: string, name: string) {
    exists left, middle, right ::
      text == left + (middle + right) && Separates(left) && Separates(right) && Spells(middle, name)
  }

  /** The text spells the name, or a vendor and the name; a name that starts with a vendor needs one more before it. */
  ghost predicate Spelling(text: string, name: string) {
    || (!NamesVendor(name) && SpellsWithin(text, name))
    || (name != "" && (SpellsWithin(text, "nvidia-" + name) || SpellsWithin(text, "amd-" + name)))
  }

  lemma {:induction false} DashedSeparators(left: string, rest: string, afterDash: bool)
    requires Separates(left)
    ensures Dashed(left + rest, afterDash) ==
            (if left == "" || afterDash then "" else "-") + Dashed(rest, afterDash || left != "")
    decreases left
  {
    if left == "" {
      assert left + rest == rest;
    } else {
      assert (left + rest)[1..] == left[1..] + rest;
      DashedSeparators(left[1..], rest, true);
    }
  }

  lemma CollapsedTail(name: string, afterDash: bool)
    requires Collapsed(name, afterDash) && name != ""
    ensures Collapsed(name[1..], name[0] == '-') && (name[0] == '-' ==> !afterDash) && IsNameChar(name[0])
  {
  }

  lemma DashedLetter(s: string, small: char, afterDash: bool)
    requires s != "" && SameLetter(small, s[0])
    ensures Dashed(s, afterDash) == [small] + Dashed(s[1..], false)
  {
  }

  lemma {:induction false} DashedSpelled(text: string, name: string, rest: string, afterDash: bool)
    requires Spells(text, name) && Collapsed(name, afterDash)
    ensures Dashed(text + rest, afterDash) == name + Dashed(rest, if name == "" then afterDash else Last(name) == '-')
    decreases name
  {
    if name == "" {
      assert text + rest == rest && name + Dashed(rest, afterDash) == Dashed(rest, afterDash);
    } else {
      CollapsedTail(name, afterDash);
      ConsConcat(name, Dashed(rest, Last(name) == '-'));
      if name[0] == '-' {
        var k :| 0 < k <= |text| && Separates(text[..k]) && Spells(text[k..], name[1..]);
        assert text + rest == text[..k] + (text[k..] + rest);
        DashedSeparators(text[..k], text[k..] + rest, false);
        DashedSpelled(text[k..], name[1..], rest, true);
      } else {
        DashedLetter(text + rest, name[0], afterDash);
        assert (text + rest)[1..] == text[1..] + rest;
        DashedSpelled(text[1..], name[1..], rest, false);
      }
    }
  }

  lemma StripsDashes(before: string, name: string, after: string)
    requires Canonical(name) && (before == "" || before == "-") && (after == "" || after == "-")
    requires name == "" ==> after == ""
    ensures StripDashes(before + (name + after)) == name
  {
    assert StripDashes(name) == name;
    assert (name + after)[..|name|] == name;
    assert StripDashes(name + after) == name;
    assert before != "" ==> (before + (name + after))[1..] == name + after;
    assert before == "" ==> before + (name + after) == name + after;
  }

  lemma SpelledSlug(left: string, middle: string, right: string, name: string)
    requires Separates(left) && Separates(right) && Spells(middle, name) && Canonical(name)
    ensures Slug(left + (middle + right)) == name
  {
    DashedSeparators(left, middle + right, false);
    DashedSpelled(middle, name, right, left != "");
    var afterDash := name == "" && left != "";
    DashedSeparators(right, "", afterDash);
    assert right + "" == right;
    var before := if left == "" then "" else "-";
    var after := Dashed(right, afterDash);
    if name == "" && left == "" {
      StripsDashes(after, name, "");
      assert before + (name + after) == after + (name + "");
    } else {
      StripsDashes(before, name, after);
    }
  }

  /** Any text that ends in a letter or digit spells the name made of it. */
  lemma {:induction false} SpellsDashed(text: string, afterDash: bool)
    requires text != "" ==> !IsSeparator(Last(text))
    requires afterDash ==> text != "" && !IsSeparator(text[0])
    ensures Spells(text, Dashed(text, afterDash))
    decreases text
  {
    if text == "" {
    } else if IsSeparator(text[0]) {
      var k := RunLength(IsSeparator, text);
      assert text == text[..k] + text[k..];
      DashedSeparators(text[..k], text[k..], false);
      SpellsDashed(text[k..], true);
      assert Dashed(text, false)[1..] == Dashed(text[k..], true);
    } else {
      SpellsDashed(text[1..], false);
      assert Dashed(text, afterDash)[1..] == Dashed(text[1..], false);
    }
  }

  /** A name a text spells has its dashes where the text has other characters, at either end too. */
  lemma {:induction false} SpelledEnds(text: string, name: string)
    requires Spells(text, name) && (text != "" ==> !IsSeparator(Last(text)))
    ensures name != "" ==> Last(name) != '-' && text != ""
    ensures name != "" && !IsSeparator(text[0]) ==> name[0] != '-'
    decreases name
  {
    if name == "" {
    } else if name[0] == '-' {
      var k :| 0 < k <= |text| && Separates(text[..k]) && Spells(text[k..], name[1..]);
      assert text[..k][0] == text[0] && text[..k][k - 1] == text[k - 1];
      SpelledEnds(text[k..], name[1..]);
    } else {
      SpelledEnds(text[1..], name[1..]);
    }
  }

  lemma {:induction false} SplitRight(text: string) returns (middle: string, right: string)
    ensures text == middle + right && Separates(right) && (middle != "" ==> !IsSeparator(Last(middle)))
    ensures middle != "" ==> middle[0] == text[0]
  {
    if text == "" || !IsSeparator(Last(text)) {
      middle, right := text, "";
    } else {
      middle, right := SplitRight(text[..|text| - 1]);
      right := right + [Last(text)];
    }
  }

  lemma SlugIsSpelled(text: string)
    ensures SpellsWithin(text, Slug(text))
  {
    var k := RunLength(IsSeparator, text);
    var middle, right := SplitRight(text[k..]);
    assert text == text[..k] + (middle + right);
    SpellsDashed(middle, false);
    DashedCollapses(middle, false);
    SpelledEnds(middle, Dashed(middle, false));
    SpelledSlug(text[..k], middle, right, Dashed(middle, false));
  }

  /** The slug of a text is exactly the canonical name the text spells. */
  lemma SlugExactly(text: string, name: string)
    ensures Slug(text) == name <==> Canonical(name) && SpellsWithin(text, name)
  {
    SlugIsSpelled(text);
    DashedCollapses(text, false);
    StrippedIsCanonical(Dashed(text, false));
    if Canonical(name) && SpellsWithin(text, name) {
      var left, middle, right :|
        text == left + (middle + right) && Separates(left) && Separates(right) && Spells(middle, name);
      SpelledSlug(left, middle, right, name);
    }
  }

  lemma DropVendor(slug: string, name: string)
    requires Canonical(slug)
    ensures WithoutVendor(slug) == name <==>
            || (!NamesVendor(name) && slug == name)
            || (name != "" && (slug == "nvidia-" + name || slug == "amd-" + name))
  {
    if "nvidia-" <= slug {
      assert slug == "nvidia-" + slug[7..];
      assert slug[7..] != "" by { assert "nvidia-"[6] == '-'; }
    } else if "amd-" <= slug {
      assert slug == "amd-" + slug[4..];
      assert slug[4..] != "" by { assert "amd-"[3] == '-'; }
    }
    assert ("nvidia-" + name)[7..] == name && ("amd-" + name)[4..] == name;
    assert "nvidia-"[0] != "amd-"[0];
  }

  /** A name is looked up as what it spells: no other text normalises to the same. */
  lemma NormaliseExactly(text: string, name: string)
    ensures Normalise(text) == name <==> Canonical(name) && Spelling(text, name)
  {
    NormaliseSpec(text);
    SlugExactly(text, name);
    SlugExactly(text, "nvidia-" + name);
    SlugExactly(text, "amd-" + name);
    SlugExactly(text, Slug(text));
    DropVendor(Slug(text), name);
    if Canonical(name) && name != "" {
      VendorFirst(name);
      NvidiaFirst(name);
    }
  }

  // ---------------------------------------------------------------------------------------------
  // The table

  /** No name is the key or an alias of two rows, nor repeated in one. */
  ghost predicate NamesOneChip(table: seq<Row>) {
    forall i, j, name ::
      0 <= i < |table| && 0 <= j < |table| && table[i].Answers(name) && table[j].Answers(name) ==> i == j
  }

  function RowNames(row: Row): seq<string> {
    [row.key] + row.gpu.aliases
  }

  lemma AnswersToItsNames(row: Row, name: string)
    ensures row.Answers(name) <==> name in RowNames(row)
  {
  }

  function AllNames(table: seq<Row>): seq<string> {
    if table == [] then [] else AllNames(table[..|table| - 1]) + RowNames(Last(table))
  }

  /** The first row that answers to an already normalised name. */
  function Find(table: seq<Row>, wanted: string): (i: int)
    ensures -1 <= i < |table|
    ensures i >= 0 ==> table[i].Answers(wanted) && forall k :: 0 <= k < i ==> !table[k].Answers(wanted)
    ensures i == -1 ==> forall k :: 0 <= k < |table| ==> !table[k].Answers(wanted)
  {
    if table == [] then -1
    else
      var before := Find(table[..|table| - 1], wanted);
      if before >= 0 then before else if Last(table).Answers(wanted) then |table| - 1 else -1
  }

  /** lookup_gpu: nothing for an empty name. */
  function Lookup(table: seq<Row>, name: string): (i: int)
    ensures -1 <= i < |table|
  {
    if name == "" then -1 else Find(table, Normalise(name))
  }

  // ---------------------------------------------------------------------------------------------
  // Updating

  /** The row an update of this chip goes to: found by key, else by label. */
  function Target(table: seq<Row>, key: string, chip: Gpu): (i: int)
    ensures -1 <= i < |table|
  {
    var byKey := Lookup(table, key);
    if byKey >= 0 then byKey else Lookup(table, chip.chipLabel)
  }

  /** Published power wins; an estimate is made again from the new TDP; any other power is kept. */
  function Updated(ours: Gpu, chip: Gpu): Gpu {
    var figures := ours.(tdp := chip.tdp, owningCost := chip.owningCost, rentalCost := chip.rentalCost,
                         costSource := chip.costSource);
    if chip.powerSource != ESTIMATED_POWER then figures.(allIn := chip.allIn, powerSource := chip.powerSource)
    else if ours.powerSource == ESTIMATED_POWER then figures.(allIn := EstimateAllIn(chip.tdp))
    else figures
  }

  function Step(table: seq<Row>, row: Row): seq<Row> {
    var i := Target(table, row.key, row.gpu);
    if i < 0 then table + [row] else table[i := Row(table[i].key, Updated(table[i].gpu, row.gpu))]
  }

  /** update_gpu_economics over the fetched rows, in order. */
  function Apply(table: seq<Row>, fetched: seq<Row>): seq<Row>
    decreases fetched
  {
    if fetched == [] then table else Apply(Step(table, fetched[0]), fetched[1..])
  }

  /** A row shaped as the fetcher builds it. */
  ghost predicate Fetched(row: Row) {
    && row.key != "" && Normalise(row.key) == row.key && row.gpu.chipLabel != ""
    && row.gpu.aliases == (if Normalise(row.gpu.chipLabel) == row.key then [] else [Normalise(row.gpu.chipLabel)])
    && (row.gpu.powerSource == ESTIMATED_POWER ==> row.gpu.allIn == EstimateAllIn(row.gpu.tdp))
  }

  ghost predicate SameNames(a: seq<Row>, b: seq<Row>) {
    |a| == |b| && forall i :: 0 <= i < |a| ==> a[i].key == b[i].key && a[i].gpu.aliases == b[i].gpu.aliases
  }

  lemma StepKeepsNames(table: seq<Row>, row: Row)
    requires NamesOneChip(table) && Fetched(row)
    ensures NamesOneChip(Step(table, row))
    ensures Target(table, row.key, row.gpu) >= 0 ==> SameNames(table, Step(table, row))
  {
    var after := Step(table, row);
    forall i, j, name | 0 <= i < |after| && 0 <= j < |after| && after[i].Answers(name) && after[j].Answers(name)
      ensures i == j
    {
      assert i < |table| ==> table[i].Answers(name);
      assert j < |table| ==> table[j].Answers(name);
    }
  }

  /** Whatever is fetched, in whatever order, every key and alias still names exactly one chip. */
  lemma {:induction false} UpdateKeepsNames(table: seq<Row>, fetched: seq<Row>)
    requires NamesOneChip(table) && forall r :: r in fetched ==> Fetched(r)
    ensures NamesOneChip(Apply(table, fetched))
    decreases fetched
  {
    if fetched == [] {
    } else {
      StepKeepsNames(table, fetched[0]);
      UpdateKeepsNames(Step(table, fetched[0]), fetched[1..]);
    }
  }

  /**
   While names are unique, lookup finds a row exactly for the texts that spell its key or one of its
   aliases: letters in either case, any run of other characters for a dash and at either end, and
   possibly a vendor in front.
   */
  lemma LookupFindsSpellings(table: seq<Row>, i: nat, text: string)
    requires NamesOneChip(table) && i < |table|
    ensures Lookup(table, text) == i <==>
            text != "" && exists name :: table[i].Answers(name) && Canonical(name) && Spelling(text, name)
  {
    if Lookup(table, text) == i {
      NormaliseExactly(text, Normalise(text));
    }
    if name :| text != "" && table[i].Answers(name) && Canonical(name) && Spelling(text, name) {
      NormaliseExactly(text, name);
    }
  }

  /** While names are unique, lookup finds the same row in any order of the table. */
  lemma LookupIgnoresOrder(a: seq<Row>, b: seq<Row>, name: string)
    requires NamesOneChip(a) && NamesOneChip(b)
    requires forall r :: r in a <==> r in b
    ensures var i, j := Lookup(a, name), Lookup(b, name);
            (i < 0 <==> j < 0) && (i >= 0 ==> a[i] == b[j])
  {
    var i, j := Lookup(a, name), Lookup(b, name);
    if i >= 0 {
      assert a[i] in b;
      var k :| 0 <= k < |b| && b[k] == a[i];
    }
    if j >= 0 {
      assert b[j] in a;
      var k :| 0 <= k < |a| && a[k] == b[j];
    }
  }

  // ---------------------------------------------------------------------------------------------
  // Applying the same fetch twice

  ghost predicate NamesDisjoint(fetched: seq<Row>) {
    forall i, j, name ::
      0 <= i < |fetched| && 0 <= j < |fetched| && fetched[i].Answers(name) && fetched[j].Answers(name) ==> i == j
  }

  /** A pass over the fetched rows with some step, and the rows the step appends on the way. */
  ghost function Fold(step: (seq<Row>, Row) -> seq<Row>, table: seq<Row>, fetched: seq<Row>): seq<Row>
    decreases fetched
  {
    if fetched == [] then table else Fold(step, step(table, fetched[0]), fetched[1..])
  }

  ghost function Added(step: (seq<Row>, Row) -> seq<Row>, adds: (seq<Row>, Row) -> bool,
                       table: seq<Row>, fetched: seq<Row>): seq<Row>
    decreases fetched
  {
    if fetched == [] then []
    else
      (if adds(table, fetched[0]) then [fetched[0]] else []) + Added(step, adds, step(table, fetched[0]), fetched[1..])
  }

  lemma {:induction false} AddedAreFetched(step: (seq<Row>, Row) -> seq<Row>, adds: (seq<Row>, Row) -> bool,
                                           table: seq<Row>, fetched: seq<Row>)
    ensures forall r :: r in Added(step, adds, table, fetched) ==> r in fetched
    decreases fetched
  {
    if fetched == [] {
    } else {
      AddedAreFetched(step, adds, step(table, fetched[0]), fetched[1..]);
    }
  }

  /** The step for row k does the same with the rows appended after it already in place. */
  ghost predicate Undisturbed(step: (seq<Row>, Row) -> seq<Row>, adds: (seq<Row>, Row) -> bool,
                              table: seq<Row>, fetched: seq<Row>, k: nat)
    requires k < |fetched|
  {
    var row := fetched[k];
    var later := Added(step, adds, step(table, row), fetched[k + 1..]);
    var start := if adds(table, row) then table + [row] else table;
    step(start + later, row) == step(table, row) + later
  }

  /** Appending in advance the rows a pass would append changes nothing. */
  lemma {:induction false} AddingFirst(step: (seq<Row>, Row) -> seq<Row>, adds: (seq<Row>, Row) -> bool,
                                       table: seq<Row>, fetched: seq<Row>, k: nat)
    requires k <= |fetched|
    requires forall t, i: nat :: i < |fetched| ==> Undisturbed(step, adds, t, fetched, i)
    ensures Fold(step, table + Added(step, adds, table, fetched[k..]), fetched[k..]) == Fold(step, table, fetched[k..])
    decreases |fetched| - k
  {
    if k == |fetched| {
      assert table + [] == table;
    } else {
      var row, rest := fetched[k], fetched[k + 1..];
      var later := Added(step, adds, step(table, row), rest);
      assert fetched[k..][1..] == rest;
      assert Undisturbed(step, adds, table, fetched, k);
      assert table + Added(step, adds, table, fetched[k..]) ==
             (if adds(table, row) then table + [row] else table) + later;
      AddingFirst(step, adds, step(table, row), fetched, k + 1);
    }
  }

  lemma AddedFirst(step: (seq<Row>, Row) -> seq<Row>, adds: (seq<Row>, Row) -> bool,
                   table: seq<Row>, fetched: seq<Row>)
    requires fetched != []
    ensures (if adds(table, fetched[0]) then table + [fetched[0]] else table)
              + Added(step, adds, step(table, fetched[0]), fetched[1..])
            == table + Added(step, adds, table, fetched)
  {
    var later := Added(step, adds, step(table, fetched[0]), fetched[1..]);
    ConcatAssociative(table, [fetched[0]], later);
    assert [] + later == later;
  }

  lemma NamesBefore(all: seq<Row>, a: seq<Row>, b: seq<Row>, later: seq<Row>, whole: seq<Row>)
    requires SameNames(all, a + later) && SameNames(a, b) && whole == b + later
    ensures SameNames(all, whole)
  {
    assert forall i :: 0 <= i < |a| ==> (a + later)[i] == a[i] && (b + later)[i] == b[i];
  }

  /** A pass keeps the names of the rows it starts with and those it appends. */
  lemma {:induction false} FoldNames(step: (seq<Row>, Row) -> seq<Row>, adds: (seq<Row>, Row) -> bool,
                                     table: seq<Row>, fetched: seq<Row>)
    requires forall t, r :: SameNames(step(t, r), if adds(t, r) then t + [r] else t)
    ensures SameNames(Fold(step, table, fetched), table + Added(step, adds, table, fetched))
    decreases fetched
  {
    if fetched == [] {
    } else {
      var row := fetched[0];
      var later := Added(step, adds, step(table, row), fetched[1..]);
      FoldNames(step, adds, step(table, row), fetched[1..]);
      var grown := if adds(table, row) then table + [row] else table;
      AddedFirst(step, adds, table, fetched);
      NamesBefore(Fold(step, table, fetched), step(table, row), grown, later,
                  table + Added(step, adds, table, fetched));
    }
  }

  lemma {:induction false} FoldKeepsFound(step: (seq<Row>, Row) -> seq<Row>, adds: (seq<Row>, Row) -> bool,
                                          table: seq<Row>, fetched: seq<Row>, row: Row)
    requires forall t, r, q :: !adds(t, q) ==> !adds(step(t, r), q)
    requires !adds(table, row)
    ensures !adds(Fold(step, table, fetched), row)
    decreases fetched
  {
    if fetched == [] {
    } else {
      FoldKeepsFound(step, adds, step(table, fetched[0]), fetched[1..], row);
    }
  }

  /** After a pass nothing is left to append. */
  lemma {:induction false} FoldFindsAll(step: (seq<Row>, Row) -> seq<Row>, adds: (seq<Row>, Row) -> bool,
                                        table: seq<Row>, fetched: seq<Row>)
    requires forall t, r, q :: !adds(t, q) ==> !adds(step(t, r), q)
    requires forall t, r :: r in fetched ==> !adds(step(t, r), r)
    ensures forall r :: r in fetched ==> !adds(Fold(step, table, fetched), r)
    decreases fetched
  {
    if fetched == [] {
    } else {
      var after := step(table, fetched[0]);
      assert fetched[0] in fetched;
      FoldKeepsFound(step, adds, after, fetched[1..], fetched[0]);
      FoldFindsAll(step, adds, after, fetched[1..]);
    }
  }

  lemma FindInLonger(table: seq<Row>, more: seq<Row>, wanted: string)
    ensures Find(table, wanted) >= 0 ==> Find(table + more, wanted) == Find(table, wanted)
    ensures Find(table, wanted) < 0 && (forall r :: r in more ==> !r.Answers(wanted)) ==> Find(table + more, wanted) < 0
  {
    assert forall k :: 0 <= k < |table| ==> (table + more)[k] == table[k];
    assert forall k :: |table| <= k < |table + more| ==>
        (table + more)[k] == more[k - |table|] && more[k - |table|] in more;
  }

  lemma FetchedRowAnswers(row: Row)
    requires Fetched(row)
    ensures row.Answers(Normalise(row.key)) && row.Answers(Normalise(row.gpu.chipLabel))
    ensures forall name :: row.Answers(name) ==> name == Normalise(row.key) || name == Normalise(row.gpu.chipLabel)
  {
  }

  /** Rows that share no name with this one do not draw its update away. */
  lemma TargetInLonger(table: seq<Row>, more: seq<Row>, row: Row)
    requires Fetched(row) && forall r, name :: r in more && r.Answers(name) ==> !row.Answers(name)
    ensures Target(table + more, row.key, row.gpu) == Target(table, row.key, row.gpu)
  {
    FetchedRowAnswers(row);
    FindInLonger(table, more, Normalise(row.key));
    FindInLonger(table, more, Normalise(row.gpu.chipLabel));
  }

  /** A row just added is found again, and updating it with itself changes nothing. */
  lemma StepFindsAdded(table: seq<Row>, row: Row)
    requires Fetched(row) && Target(table, row.key, row.gpu) < 0
    ensures Target(table + [row], row.key, row.gpu) == |table|
    ensures Step(table + [row], row) == table + [row]
  {
  }

  lemma TargetBySameNames(a: seq<Row>, b: seq<Row>, row: Row)
    requires SameNames(a, b)
    ensures Target(a, row.key, row.gpu) == Target(b, row.key, row.gpu)
  {
  }

  /** Every fetched row has a row to update. */
  ghost predicate AllFound(table: seq<Row>, fetched: seq<Row>) {
    forall r :: r in fetched ==> Target(table, r.key, r.gpu) >= 0
  }

  /** The fetch is made of rows the fetcher builds, no two of which share a name. */
  ghost predicate GoodFetch(fetched: seq<Row>) {
    NamesDisjoint(fetched) && forall r :: r in fetched ==> Fetched(r)
  }

  predicate Adds(table: seq<Row>, row: Row) {
    Target(table, row.key, row.gpu) < 0
  }

  lemma {:induction false} ApplyIsFold(table: seq<Row>, fetched: seq<Row>)
    ensures Apply(table, fetched) == Fold(Step, table, fetched)
    decreases fetched
  {
    if fetched == [] {
    } else {
      ApplyIsFold(Step(table, fetched[0]), fetched[1..]);
    }
  }

  /** What is added later in a good fetch shares no name with an earlier row. */
  lemma LaterShareNoName(fetched: seq<Row>, i: nat, later: seq<Row>)
    requires GoodFetch(fetched) && i < |fetched| && forall r :: r in later ==> r in fetched[i + 1..]
    ensures forall r, name :: r in later && r.Answers(name) ==> !fetched[i].Answers(name)
  {
  }

  lemma StepBeside(table: seq<Row>, row: Row, later: seq<Row>)
    requires Fetched(row) && forall r, name :: r in later && r.Answers(name) ==> !row.Answers(name)
    ensures Step((if Adds(table, row) then table + [row] else table) + later, row) == Step(table, row) + later
  {
    if Adds(table, row) {
      StepFindsAdded(table, row);
      TargetInLonger(table + [row], later, row);
    } else {
      TargetInLonger(table, later, row);
    }
  }

  lemma StepUndisturbed(table: seq<Row>, fetched: seq<Row>, i: nat)
    requires GoodFetch(fetched) && i < |fetched|
    ensures Undisturbed(Step, Adds, table, fetched, i)
  {
    var row := fetched[i];
    var later := Added(Step, Adds, Step(table, row), fetched[i + 1..]);
    AddedAreFetched(Step, Adds, Step(table, row), fetched[i + 1..]);
    LaterShareNoName(fetched, i, later);
    StepBeside(table, row, later);
  }

  lemma UpdateAsIfAddedFirst(table: seq<Row>, fetched: seq<Row>)
    requires GoodFetch(fetched)
    ensures Apply(table + Added(Step, Adds, table, fetched), fetched) == Apply(table, fetched)
  {
    forall t, i: nat | i < |fetched| ensures Undisturbed(Step, Adds, t, fetched, i) {
      StepUndisturbed(t, fetched, i);
    }
    AddingFirst(Step, Adds, table, fetched, 0);
    assert fetched[0..] == fetched;
    ApplyIsFold(table, fetched);
    ApplyIsFold(table + Added(Step, Adds, table, fetched), fetched);
  }

  lemma StepNames(table: seq<Row>, row: Row)
    ensures SameNames(Step(table, row), if Adds(table, row) then table + [row] else table)
  {
  }

  lemma FindInPrefix(table: seq<Row>, longer: seq<Row>, wanted: string)
    requires |table| <= |longer| && SameNames(table, longer[..|table|])
    ensures Find(table, wanted) >= 0 ==> Find(longer, wanted) >= 0
  {
  }

  lemma StepKeepsFound(table: seq<Row>, row: Row, other: Row)
    ensures !Adds(table, other) ==> !Adds(Step(table, row), other)
    ensures Fetched(row) ==> !Adds(Step(table, row), row)
  {
    StepNames(table, row);
    var after := Step(table, row);
    FindInPrefix(table, after, Normalise(other.key));
    FindInPrefix(table, after, Normalise(other.gpu.chipLabel));
    FindInPrefix(table, after, Normalise(row.key));
    FindInPrefix(table, after, Normalise(row.gpu.chipLabel));
    if Fetched(row) && Adds(table, row) {
      StepFindsAdded(table, row);
    }
  }

  lemma FoundAfterAdding(table: seq<Row>, fetched: seq<Row>)
    requires forall r :: r in fetched ==> Fetched(r)
    ensures AllFound(table + Added(Step, Adds, table, fetched), fetched)
  {
    forall t, r, q ensures !Adds(t, q) ==> !Adds(Step(t, r), q) { StepKeepsFound(t, r, q); }
    forall t, r | r in fetched ensures !Adds(Step(t, r), r) { StepKeepsFound(t, r, r); }
    FoldFindsAll(Step, Adds, table, fetched);
    forall t, r ensures SameNames(Step(t, r), if Adds(t, r) then t + [r] else t) { StepNames(t, r); }
    FoldNames(Step, Adds, table, fetched);
    forall r | r in fetched ensures Target(table + Added(Step, Adds, table, fetched), r.key, r.gpu) >= 0 {
      TargetBySameNames(Fold(Step, table, fetched), table + Added(Step, Adds, table, fetched), r);
    }
  }

  /** The chips of the fetched rows that update row i, in order. */
  ghost function Hits(table: seq<Row>, fetched: seq<Row>, i: nat): seq<Gpu> {
    if fetched == [] then []
    else
      (if Target(table, fetched[0].key, fetched[0].gpu) == i then [fetched[0].gpu] else []) +
      Hits(table, fetched[1..], i)
  }

  ghost function Folded(ours: Gpu, chips: seq<Gpu>): Gpu
    decreases chips
  {
    if chips == [] then ours else Folded(Updated(ours, chips[0]), chips[1..])
  }

  lemma {:induction false} HitsBySameNames(a: seq<Row>, b: seq<Row>, fetched: seq<Row>, i: nat)
    requires SameNames(a, b)
    ensures Hits(a, fetched, i) == Hits(b, fetched, i)
  {
    if fetched == [] {
    } else {
      TargetBySameNames(a, b, fetched[0]);
      HitsBySameNames(a, b, fetched[1..], i);
    }
  }

  /** With every row found, an update leaves each row folded over its own hits. */
  lemma {:induction false} ApplyIsFolded(table: seq<Row>, fetched: seq<Row>)
    requires AllFound(table, fetched)
    ensures SameNames(table, Apply(table, fetched))
    ensures forall i :: 0 <= i < |table| ==>
            Apply(table, fetched)[i].gpu == Folded(table[i].gpu, Hits(table, fetched, i))
    decreases fetched
  {
    if fetched == [] {
    } else {
      var row, rest := fetched[0], fetched[1..];
      var after := Step(table, row);
      assert row in fetched && SameNames(table, after);
      forall r | r in rest ensures Target(after, r.key, r.gpu) >= 0 {
        assert r in fetched;
        TargetBySameNames(table, after, r);
      }
      ApplyIsFolded(after, rest);
      forall i | 0 <= i < |table|
        ensures Apply(table, fetched)[i].gpu == Folded(table[i].gpu, Hits(table, fetched, i))
      {
        HitsBySameNames(table, after, rest, i);
        var later := Hits(table, rest, i);
        if Target(table, row.key, row.gpu) == i {
          assert ([row.gpu] + later)[1..] == later;
        } else {
          assert [] + later == later;
        }
      }
    }
  }

  /** The last chip whose power InferenceX publishes. */
  ghost function LastPublished(chips: seq<Gpu>): Option<Gpu> {
    if chips == [] then None
    else if LastPublished(chips[1..]).Some? then LastPublished(chips[1..])
    else if chips[0].powerSource != ESTIMATED_POWER then Some(chips[0])
    else None
  }

  /**
   A row after a series of updates: TDP and costs of the last chip; power of the last published one,
   else estimated from the last TDP and a host share of 350 W if it was an estimate before, else kept.
   */
  lemma {:induction false} FoldedSpec(ours: Gpu, chips: seq<Gpu>)
    requires chips != []
    ensures var end, last, published := Folded(ours, chips), Last(chips), LastPublished(chips);
            && end == ours.(tdp := last.tdp, owningCost := last.owningCost, rentalCost := last.rentalCost,
                            costSource := last.costSource, allIn := end.allIn, powerSource := end.powerSource)
            && (end.powerSource, end.allIn) ==
                 (if published.Some? then (published.value.powerSource, published.value.allIn)
                  else if ours.powerSource == ESTIMATED_POWER then (ESTIMATED_POWER, (last.tdp + 350.0) * 1.3)
                  else (ours.powerSource, ours.allIn))
    decreases chips
  {
    var next := Updated(ours, chips[0]);
    if |chips| == 1 {
      assert chips[1..] == [];
    } else {
      FoldedSpec(next, chips[1..]);
      assert Last(chips[1..]) == Last(chips);
    }
  }

  lemma {:induction false} PublishedIsPublished(chips: seq<Gpu>)
    ensures LastPublished(chips).Some? ==> LastPublished(chips).value.powerSource != ESTIMATED_POWER
  {
    if chips == [] {
    } else {
      PublishedIsPublished(chips[1..]);
    }
  }

  lemma FoldingTwice(ours: Gpu, chips: seq<Gpu>)
    ensures Folded(Folded(ours, chips), chips) == Folded(ours, chips)
  {
    if chips != [] {
      PublishedIsPublished(chips);
      FoldedSpec(ours, chips);
      FoldedSpec(Folded(ours, chips), chips);
    }
  }

  /** With fetched names pairwise disjoint, applying the same fetch again changes nothing. */
  lemma UpdatingTwiceIsUpdatingOnce(table: seq<Row>, fetched: seq<Row>)
    requires GoodFetch(fetched)
    ensures Apply(Apply(table, fetched), fetched) == Apply(table, fetched)
  {
    var whole := table + Added(Step, Adds, table, fetched);
    UpdateAsIfAddedFirst(table, fetched);
    FoundAfterAdding(table, fetched);
    ApplyIsFolded(whole, fetched);
    var once := Apply(whole, fetched);
    forall r | r in fetched ensures Target(once, r.key, r.gpu) >= 0 {
      TargetBySameNames(whole, once, r);
    }
    ApplyIsFolded(once, fetched);
    var twice := Apply(once, fetched);
    forall i | 0 <= i < |once| ensures twice[i] == once[i] {
      HitsBySameNames(whole, once, fetched, i);
      FoldingTwice(whole[i].gpu, Hits(whole, fetched, i));
    }
    assert twice == once;
  }

  /** Two fetched chips that share a name: one is a row's by label, and its key names the other, not in the table. */
  ghost predicate Overlaps(r: Row, a: Row, b: Row) {
    && Fetched(a) && Fetched(b) && a.key != b.key && Normalise(b.gpu.chipLabel) == a.key
    && r.Answers(Normalise(a.gpu.chipLabel)) && !r.Answers(a.key) && !r.Answers(b.key)
    && a.gpu.powerSource != ESTIMATED_POWER && b.gpu.powerSource == ESTIMATED_POWER
  }

  lemma FirstOfTwo(table: seq<Row>, a: Row, b: Row)
    ensures Apply(table, [a, b]) == Step(Step(table, a), b)
  {
    assert [a, b][1..] == [b] && [b][1..] == [];
    assert Apply(Step(table, a), [b]) == Apply(Step(Step(table, a), b), []);
  }

  /** The first pass gives the row its update and adds the other chip. */
  lemma OverlapFirstPass(r: Row, a: Row, b: Row)
    requires Overlaps(r, a, b)
    ensures Apply([r], [a, b]) == [Row(r.key, Updated(r.gpu, a.gpu)), b]
  {
    FirstOfTwo([r], a, b);
    var once := [Row(r.key, Updated(r.gpu, a.gpu))];
    assert Step([r], a) == once;
    assert Step(once, b) == once + [b];
  }

  /** The second finds the first chip's key on the added one, and gives it the first one's power. */
  lemma OverlapSecondPass(r: Row, a: Row, b: Row)
    requires Overlaps(r, a, b)
    ensures var once := Row(r.key, Updated(r.gpu, a.gpu));
            Apply([once, b], [a, b]) == [once, Row(b.key, Updated(Updated(b.gpu, a.gpu), b.gpu))]
  {
    var once := Row(r.key, Updated(r.gpu, a.gpu));
    var moved := Row(b.key, Updated(b.gpu, a.gpu));
    FirstOfTwo([once, b], a, b);
    assert Step([once, b], a) == [once, moved];
    assert Step([once, moved], b) == [once, Row(b.key, Updated(moved.gpu, b.gpu))];
  }

  /** Without disjoint names, applying a fetch twice can differ from applying it once. */
  lemma OverlapUpdatesTwice(r: Row, a: Row, b: Row)
    requires Overlaps(r, a, b)
    ensures !NamesDisjoint([a, b])
    ensures Apply(Apply([r], [a, b]), [a, b]) != Apply([r], [a, b])
  {
    OverlapFirstPass(r, a, b);
    OverlapSecondPass(r, a, b);
    assert [a, b][0].Answers(a.key) && [a, b][1].Answers(a.key);
  }

  lemma Letters(name: string)
    requires name == "a" || name == "b" || name == "r"
    ensures Normalise(name) == name
  {
    KeysAccepted(name);
  }

  /** Such chips exist, in a table whose names are unique. */
  lemma SomeChipsOverlap() returns (r: Row, a: Row, b: Row)
    ensures NamesOneChip([r]) && Overlaps(r, a, b)
  {
    Letters("a");
    Letters("b");
    Letters("r");
    var estimate := EstimateAllIn(1.0);
    r := Row("r", Gpu("r", "v", 1.0, estimate, None, None, ESTIMATED_POWER, "c", []));
    a := Row("a", Gpu("r", "v", 1.0, 2.0, None, None, "p", "c", ["r"]));
    b := Row("b", Gpu("a", "v", 1.0, estimate, None, None, ESTIMATED_POWER, "c", ["a"]));
    assert |ESTIMATED_POWER| > 1;
  }

  // ---------------------------------------------------------------------------------------------
  // The module's table and its loops

  lemma {:induction false} ApplySnoc(table: seq<Row>, fetched: seq<Row>, row: Row)
    ensures Apply(table, fetched + [row]) == Step(Apply(table, fetched), row)
    decreases fetched
  {
    if fetched == [] {
      assert [row][1..] == [] && fetched + [row] == [row];
    } else {
      assert (fetched + [row])[1..] == fetched[1..] + [row];
      ApplySnoc(Step(table, fetched[0]), fetched[1..], row);
    }
  }

  /** Record the names of one row, unless one of them is taken. */
  method AddNames(ghost before: seq<string>, seen: map<string, string>, row: Row)
    returns (seen': map<string, string>, duplicate: Option<string>)
    requires Distinct(before) && forall name :: name in seen <==> name in before
    ensures duplicate.None? <==> Distinct(before + RowNames(row))
    ensures duplicate.None? ==> forall name :: name in seen' <==> name in before + RowNames(row)
    ensures duplicate.Some? ==> duplicate.value in RowNames(row)
  {
    var names := RowNames(row);
    seen' := seen;
    for j := 0 to |names|
      invariant Distinct(before + names[..j])
      invariant forall name :: name in seen' <==> name in before + names[..j]
    {
      if names[j] in seen' {
        duplicate := Some(names[j]);
        ghost var k :| 0 <= k < |before + names[..j]| && (before + names[..j])[k] == names[j];
        assert (before + names)[k] == names[j] && (before + names)[|before| + j] == names[j];
        return;
      }
      seen' := seen'[names[j] := row.key];
      assert before + names[..j + 1] == before + names[..j] + [names[j]];
    }
    assert names[..|names|] == names;
    duplicate := None;
  }

  /** The loader's check: the first name that comes a second time, if any. */
  method CheckNames(table: seq<Row>) returns (duplicate: Option<string>)
    ensures duplicate.None? <==> Distinct(AllNames(table))
  {
    var seen: map<string, string> := map[];
    for i := 0 to |table|
      invariant Distinct(AllNames(table[..i]))
      invariant forall name :: name in seen <==> name in AllNames(table[..i])
    {
      assert table[..i + 1][..i] == table[..i];
      AllNamesPrefix(table, i + 1);
      seen, duplicate := AddNames(AllNames(table[..i]), seen, table[i]);
      if duplicate.Some? {
        return;
      }
    }
    assert table[..|table|] == table;
    duplicate := None;
  }

  lemma {:induction false} AllNamesPrefix(table: seq<Row>, i: nat)
    requires i <= |table|
    ensures AllNames(table[..i]) <= AllNames(table)
  {
    if i == |table| {
      assert table[..i] == table;
    } else {
      var front := table[..|table| - 1];
      AllNamesPrefix(front, i);
      assert front[..i] == table[..i];
    }
  }

  /** What the loader's check buys: every name of a table it accepts answers for one row only. */
  lemma {:induction false} DistinctNamesOneChip(table: seq<Row>)
    requires Distinct(AllNames(table))
    ensures NamesOneChip(table)
    ensures forall i, name :: 0 <= i < |table| && table[i].Answers(name) ==> name in AllNames(table)
  {
    if table == [] {
    } else {
      var front, last := table[..|table| - 1], Last(table);
      AllNamesPrefix(table, |front|);
      DistinctNamesOneChip(front);
      forall name | last.Answers(name) ensures name in RowNames(last) && name !in AllNames(front) {
        AnswersToItsNames(last, name);
        var k :| 0 <= k < |RowNames(last)| && RowNames(last)[k] == name;
        assert AllNames(table)[|AllNames(front)| + k] == name;
      }
      forall i, name | 0 <= i < |table| && table[i].Answers(name) ensures name in AllNames(table) {
        assert i < |front| ==> front[i].Answers(name);
      }
      forall i, j, name | 0 <= i < |table| && 0 <= j < |table| && table[i].Answers(name) && table[j].Answers(name)
        ensures i == j
      {
        assert i < |front| ==> front[i].Answers(name);
        assert j < |front| ==> front[j].Answers(name);
      }
    }
  }

  /** The key of the row a step updates or adds. */
  function TouchedKey(table: seq<Row>, row: Row): string {
    var i := Target(table, row.key, row.gpu);
    if i < 0 then row.key else table[i].key
  }

  function Touched(table: seq<Row>, fetched: seq<Row>): seq<string> {
    if fetched == [] then []
    else
      var front := fetched[..|fetched| - 1];
      Touched(table, front) + [TouchedKey(Apply(table, front), Last(fetched))]
  }

  class GpuTable {
    var rows: seq<Row>

    constructor (rows: seq<Row>)
      requires Distinct(AllNames(rows))
      ensures this.rows == rows && NamesOneChip(this.rows)
    {
      this.rows := rows;
      DistinctNamesOneChip(rows);
    }

    /** update_gpu_economics: one pass over the fetched chips; returns the keys updated or added. */
    method Update(fetched: seq<Row>) returns (updated: seq<string>)
      modifies this
      ensures rows == Apply(old(rows), fetched)
      ensures updated == Touched(old(rows), fetched)
      ensures NamesOneChip(old(rows)) && (forall r :: r in fetched ==> Fetched(r)) ==> NamesOneChip(rows)
    {
      if NamesOneChip(rows) && forall r :: r in fetched ==> Fetched(r) {
        UpdateKeepsNames(rows, fetched);
      }
      updated := [];
      for k := 0 to |fetched|
        invariant rows == Apply(old(rows), fetched[..k])
        invariant updated == Touched(old(rows), fetched[..k])
      {
        assert fetched[..k + 1][..k] == fetched[..k] && fetched[..k + 1] == fetched[..k] + [fetched[k]];
        ApplySnoc(old(rows), fetched[..k], fetched[k]);
        var row := fetched[k];
        var i := Target(rows, row.key, row.gpu);
        if i < 0 {
          rows := rows + [row];
          updated := updated + [row.key];
        } else {
          rows := rows[i := Row(rows[i].key, Updated(rows[i].gpu, row.gpu))];
          updated := updated + [rows[i].key];
        }
      }
      assert fetched[..|fetched|] == fetched;
    }
  }
}
