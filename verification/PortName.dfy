/**
 Interface names and port IDs: parsing the vendors' spellings, and the resolver that numbers the
 names a switch reports in switch-port order.
 */
module PortName {
  import opened Common
  import opened Sorting
  import opened Text

  const NO_SUBPORT: int := -1

  datatype InterfaceName = InterfaceName(raw: string, prefix: string, cage: nat, subport: int, slot: nat) {
    /** The physical port the name belongs to. */
    function Where(): Cage { Cage(prefix, slot, cage) }
  }

  datatype Cage = Cage(prefix: string, slot: nat, number: nat)

  /** Which notation the resolver reads: parse, or parse_cisco. */
  datatype Vendor = Plain | Cisco

  // ---------------------------------------------------------------------------------------------
  // Parsing

  /** The digits at the start of s, as a number, and what follows them; None when there are none. */
  function TakeNumber(s: string): Option<(nat, string)> {
    var n := RunLength(IsDigit, s);
    if n == 0 then None else Some((ParseNat(s[..n]), s[n..]))
  }

  /** The digits a subport consists of, up to the end of the name. */
  function WholeNumber(s: string): Option<nat> {
    match TakeNumber(s)
    case Some((n, "")) => Some(n)
    case _ => None
  }

  /** parse: letters, digits, and optionally "s" or "/" with more digits. */
  function ParsePlain(raw: string): Option<InterfaceName> {
    var p := RunLength(IsLetter, raw);
    if p == 0 then None
    else
      match TakeNumber(raw[p..])
      case None => None
      case Some((cage, rest)) =>
        if rest == "" then Some(InterfaceName(raw, raw[..p], cage, NO_SUBPORT, 0))
        else if rest[0] != 's' && rest[0] != '/' then None
        else
          match WholeNumber(rest[1..])
          case None => None
          case Some(subport) => Some(InterfaceName(raw, raw[..p], cage, subport, 0))
  }

  /** parse_cisco: "Ethernet" or "Eth", then slot/port and optionally /subport. */
  function ParseCisco(raw: string): Option<InterfaceName> {
    var p := RunLength(IsLetter, raw);
    if raw[..p] != "Ethernet" && raw[..p] != "Eth" then None
    else
      match TakeNumber(raw[p..])
      case None => None
      case Some((slot, rest)) => CiscoPort(raw, slot, rest)
  }

  /** What follows the slot: /port and optionally /subport. */
  function CiscoPort(raw: string, slot: nat, rest: string): Option<InterfaceName> {
    if rest == "" || rest[0] != '/' then None
    else
      match TakeNumber(rest[1..])
      case None => None
      case Some((cage, rest2)) =>
        if rest2 == "" then Some(InterfaceName(raw, "Ethernet", cage, NO_SUBPORT, slot))
        else if rest2[0] != '/' then None
        else
          match WholeNumber(rest2[1..])
          case None => None
          case Some(subport) => Some(InterfaceName(raw, "Ethernet", cage, subport, slot))
  }

  function Parse(vendor: Vendor, name: string): Option<InterfaceName> {
    match vendor
    case Plain => ParsePlain(Strip(name))
    case Cisco => ParseCisco(Strip(name))
  }

  lemma TakeDecimal(n: nat, t: string)
    requires t == "" || !IsDigit(t[0])
    ensures TakeNumber(Decimal(n) + t) == Some((n, t))
  {
    TakeDigits(Decimal(n), t);
    ParseDecimal(n);
  }

  /** How a name spells its subport: nothing, or a separator and the index. */
  ghost predicate SpellsSubport(suffix: string, separators: set<char>, subport: int) {
    if subport == NO_SUBPORT then suffix == ""
    else subport >= 0 && suffix != "" && suffix[0] in separators && suffix[1..] == Decimal(subport)
  }

  /** A suffix as the parsers see it. */
  ghost predicate ReadsSubport(suffix: string, separators: set<char>, subport: int) {
    if subport == NO_SUBPORT then suffix == ""
    else subport >= 0 && suffix != "" && suffix[0] in separators && WholeNumber(suffix[1..]) == Some(subport)
  }

  lemma SpelledIsRead(suffix: string, separators: set<char>, subport: int)
    requires SpellsSubport(suffix, separators, subport)
    ensures ReadsSubport(suffix, separators, subport)
  {
    if subport >= 0 {
      TakeDecimal(subport, "");
      assert Decimal(subport) + "" == suffix[1..];
    }
  }

  ghost predicate IsPrefix(prefix: string) {
    prefix != "" && forall i :: 0 <= i < |prefix| ==> IsLetter(prefix[i])
  }

  lemma {:induction false} StripTrims(left: string, s: string, right: string)
    requires s != "" && !IsSpace(s[0]) && !IsSpace(Last(s))
    requires forall i :: 0 <= i < |left| ==> IsSpace(left[i])
    requires forall i :: 0 <= i < |right| ==> IsSpace(right[i])
    ensures Strip(left + s + right) == s
    decreases |left| + |right|
  {
    var all := left + s + right;
    if left != "" {
      assert all[1..] == left[1..] + s + right;
      StripTrims(left[1..], s, right);
    } else if right != "" {
      assert all[0] == s[0] && Last(all) == Last(right);
      assert all[..|all| - 1] == left + s + right[..|right| - 1];
      StripTrims(left, s, right[..|right| - 1]);
    } else {
      assert all == s;
    }
  }

  lemma SplitPrefix(prefix: string, rest: string)
    requires IsPrefix(prefix) && rest != "" && !IsLetter(rest[0])
    ensures RunLength(IsLetter, prefix + rest) == |prefix|
    ensures (prefix + rest)[..|prefix|] == prefix && (prefix + rest)[|prefix|..] == rest
  {
  }

  lemma ParsePlainParts(prefix: string, rest: string, cage: nat, suffix: string, subport: int)
    requires IsPrefix(prefix) && rest != "" && !IsLetter(rest[0])
    requires TakeNumber(rest) == Some((cage, suffix)) && ReadsSubport(suffix, {'s', '/'}, subport)
    ensures ParsePlain(prefix + rest) == Some(InterfaceName(prefix + rest, prefix, cage, subport, 0))
  {
    SplitPrefix(prefix, rest);
  }

  lemma CiscoPrefix(prefix: string)
    requires prefix == "Ethernet" || prefix == "Eth"
    ensures IsPrefix(prefix)
  {
  }

  lemma CiscoPortParts(raw: string, slot: nat, rest2: string, cage: nat, suffix: string, subport: int)
    requires rest2 != "" && rest2[0] == '/'
    requires TakeNumber(rest2[1..]) == Some((cage, suffix)) && ReadsSubport(suffix, {'/'}, subport)
    ensures CiscoPort(raw, slot, rest2) == Some(InterfaceName(raw, "Ethernet", cage, subport, slot))
  {
  }

  lemma ParseCiscoParts(prefix: string, rest: string, slot: nat, rest2: string, cage: nat, suffix: string, subport: int)
    requires (prefix == "Ethernet" || prefix == "Eth") && rest != "" && !IsLetter(rest[0])
    requires TakeNumber(rest) == Some((slot, rest2)) && rest2 != "" && rest2[0] == '/'
    requires TakeNumber(rest2[1..]) == Some((cage, suffix)) && ReadsSubport(suffix, {'/'}, subport)
    ensures ParseCisco(prefix + rest) == Some(InterfaceName(prefix + rest, "Ethernet", cage, subport, slot))
  {
    CiscoPrefix(prefix);
    SplitPrefix(prefix, rest);
    CiscoPortParts(prefix + rest, slot, rest2, cage, suffix, subport);
  }

  /** How a subport may be written, with any number of digits. */
  ghost predicate WritesSubport(suffix: string, separators: set<char>, subport: int) {
    if subport == NO_SUBPORT then suffix == ""
    else suffix != "" && suffix[0] in separators && AllDigits(suffix[1..]) && ParseNat(suffix[1..]) == subport
  }

  lemma TakeDigits(digits: string, t: string)
    requires AllDigits(digits) && (t == "" || !IsDigit(t[0]))
    ensures TakeNumber(digits + t) == Some((ParseNat(digits), t))
  {
    RunLengthOf(IsDigit, digits, t);
    assert (digits + t)[..|digits|] == digits && (digits + t)[|digits|..] == t;
  }

  lemma TakenDigits(s: string)
    ensures TakeNumber(s).Some? ==>
              var n := RunLength(IsDigit, s);
              && AllDigits(s[..n]) && s == s[..n] + s[n..] && (s[n..] == "" || !IsDigit(s[n..][0]))
              && TakeNumber(s) == Some((ParseNat(s[..n]), s[n..]))
  {
  }

  lemma WrittenIsRead(suffix: string, separators: set<char>, subport: int)
    ensures WritesSubport(suffix, separators, subport) <==> ReadsSubport(suffix, separators, subport)
  {
    if suffix != "" {
      TakenDigits(suffix[1..]);
      assert suffix[1..] + "" == suffix[1..];
      if AllDigits(suffix[1..]) {
        TakeDigits(suffix[1..], "");
      }
    }
  }

  /** The name is letters, digits and possibly a subport, and stands for these parts. */
  ghost predicate WritesPlain(raw: string, n: InterfaceName, digits: string, suffix: string) {
    && raw == n.prefix + (digits + suffix) && n.raw == raw && n.slot == 0
    && IsPrefix(n.prefix)
    && AllDigits(digits) && ParseNat(digits) == n.cage
    && WritesSubport(suffix, {'s', '/'}, n.subport)
  }

  lemma WrittenPlainParses(raw: string, n: InterfaceName, digits: string, suffix: string)
    requires WritesPlain(raw, n, digits, suffix)
    ensures ParsePlain(raw) == Some(n)
  {
    WrittenIsRead(suffix, {'s', '/'}, n.subport);
    TakeDigits(digits, suffix);
    ParsePlainParts(n.prefix, digits + suffix, n.cage, suffix, n.subport);
  }

  lemma ReadFrom(raw: string, p: nat, digits: string, suffix: string)
    requires ParsePlain(raw).Some? && p == RunLength(IsLetter, raw)
    requires AllDigits(digits) && TakeNumber(raw[p..]) == Some((ParseNat(digits), suffix))
    ensures var n := ParsePlain(raw).value;
            && n.raw == raw && n.prefix == raw[..p] != "" && n.cage == ParseNat(digits) && n.slot == 0
            && ReadsSubport(suffix, {'s', '/'}, n.subport)
  {
  }

  lemma ParsedPlainIsWritten(raw: string) returns (digits: string, suffix: string)
    requires ParsePlain(raw).Some?
    ensures WritesPlain(raw, ParsePlain(raw).value, digits, suffix)
  {
    var p := RunLength(IsLetter, raw);
    var tail := raw[p..];
    TakenDigits(tail);
    var k := RunLength(IsDigit, tail);
    digits, suffix := tail[..k], tail[k..];
    assert tail == digits + suffix && raw == raw[..p] + tail;
    ReadFrom(raw, p, digits, suffix);
    WrittenIsRead(suffix, {'s', '/'}, ParsePlain(raw).value.subport);
  }

  /** parse accepts exactly the names in its notation, and gives their parts. */
  lemma ParsesExactlyPlainNames(raw: string, n: InterfaceName)
    ensures ParsePlain(raw) == Some(n) <==> exists digits, suffix :: WritesPlain(raw, n, digits, suffix)
  {
    if ParsePlain(raw) == Some(n) {
      var digits, suffix := ParsedPlainIsWritten(raw);
    }
    if digits, suffix :| WritesPlain(raw, n, digits, suffix) {
      WrittenPlainParses(raw, n, digits, suffix);
    }
  }

  /** What follows the prefix of an NX-OS name. */
  ghost predicate WritesSlotAndPort(tail: string, n: InterfaceName, slotDigits: string, cageDigits: string,
                                    suffix: string)
  {
    && tail == slotDigits + (['/'] + (cageDigits + suffix))
    && AllDigits(slotDigits) && ParseNat(slotDigits) == n.slot
    && AllDigits(cageDigits) && ParseNat(cageDigits) == n.cage
    && WritesSubport(suffix, {'/'}, n.subport)
  }

  ghost predicate WritesCisco(raw: string, n: InterfaceName, word: string, slotDigits: string, cageDigits: string,
                              suffix: string)
  {
    && (word == "Ethernet" || word == "Eth") && word <= raw && n.raw == raw && n.prefix == "Ethernet"
    && WritesSlotAndPort(raw[|word|..], n, slotDigits, cageDigits, suffix)
  }

  lemma WrittenCiscoParses(raw: string, n: InterfaceName, word: string, slotDigits: string, cageDigits: string,
                           suffix: string)
    requires WritesCisco(raw, n, word, slotDigits, cageDigits, suffix)
    ensures ParseCisco(raw) == Some(n)
  {
    var rest2 := ['/'] + (cageDigits + suffix);
    WrittenIsRead(suffix, {'/'}, n.subport);
    TakeDigits(slotDigits, rest2);
    assert rest2[1..] == cageDigits + suffix;
    TakeDigits(cageDigits, suffix);
    assert word + raw[|word|..] == raw;
    ParseCiscoParts(word, raw[|word|..], n.slot, rest2, n.cage, suffix, n.subport);
  }

  lemma CiscoReadFrom(raw: string, p: nat, slotDigits: string, rest: string, cageDigits: string, suffix: string)
    requires ParseCisco(raw).Some? && p == RunLength(IsLetter, raw) && AllDigits(slotDigits) && AllDigits(cageDigits)
    requires TakeNumber(raw[p..]) == Some((ParseNat(slotDigits), rest)) && rest != ""
    requires TakeNumber(rest[1..]) == Some((ParseNat(cageDigits), suffix))
    ensures var n := ParseCisco(raw).value;
            && (raw[..p] == "Ethernet" || raw[..p] == "Eth") && n.raw == raw && n.prefix == "Ethernet"
            && n.slot == ParseNat(slotDigits) && n.cage == ParseNat(cageDigits)
            && ReadsSubport(suffix, {'/'}, n.subport)
  {
  }

  lemma CiscoStarts(raw: string, p: nat)
    requires ParseCisco(raw).Some? && p == RunLength(IsLetter, raw)
    ensures TakeNumber(raw[p..]).Some?
    ensures CiscoPort(raw, TakeNumber(raw[p..]).value.0, TakeNumber(raw[p..]).value.1).Some?
  {
  }

  lemma CiscoPortStarts(raw: string, slot: nat, rest: string)
    ensures CiscoPort(raw, slot, rest).Some? ==>
              rest != "" && rest == ['/'] + rest[1..] && TakeNumber(rest[1..]).Some?
  {
  }

  lemma SplitDigits(s: string) returns (digits: string, rest: string)
    requires TakeNumber(s).Some?
    ensures AllDigits(digits) && s == digits + rest && TakeNumber(s) == Some((ParseNat(digits), rest))
  {
    TakenDigits(s);
    var k := RunLength(IsDigit, s);
    digits, rest := s[..k], s[k..];
  }

  lemma CiscoSlotDigits(raw: string, p: nat) returns (slotDigits: string, rest: string)
    requires ParseCisco(raw).Some? && p == RunLength(IsLetter, raw)
    ensures AllDigits(slotDigits) && raw[p..] == slotDigits + rest && rest != "" && rest == ['/'] + rest[1..]
    ensures TakeNumber(raw[p..]) == Some((ParseNat(slotDigits), rest)) && TakeNumber(rest[1..]).Some?
  {
    CiscoStarts(raw, p);
    slotDigits, rest := SplitDigits(raw[p..]);
    CiscoPortStarts(raw, ParseNat(slotDigits), rest);
  }

  lemma ParsedCiscoIsWritten(raw: string) returns (word: string, slotDigits: string, cageDigits: string, suffix: string)
    requires ParseCisco(raw).Some?
    ensures WritesCisco(raw, ParseCisco(raw).value, word, slotDigits, cageDigits, suffix)
  {
    var p := RunLength(IsLetter, raw);
    word := raw[..p];
    var rest;
    slotDigits, rest := CiscoSlotDigits(raw, p);
    var port := rest[1..];
    TakenDigits(port);
    var j := RunLength(IsDigit, port);
    cageDigits, suffix := port[..j], port[j..];
    CiscoReadFrom(raw, p, slotDigits, rest, cageDigits, suffix);
    WrittenIsRead(suffix, {'/'}, ParseCisco(raw).value.subport);
    assert raw[p..] == slotDigits + (['/'] + (cageDigits + suffix));
  }

  /** parse_cisco accepts exactly the NX-OS names, and gives their parts. */
  lemma ParsesExactlyCiscoNames(raw: string, n: InterfaceName)
    ensures ParseCisco(raw) == Some(n) <==>
            exists word, slotDigits, cageDigits, suffix :: WritesCisco(raw, n, word, slotDigits, cageDigits, suffix)
  {
    if ParseCisco(raw) == Some(n) {
      var word, slotDigits, cageDigits, suffix := ParsedCiscoIsWritten(raw);
    }
    if word, slotDigits, cageDigits, suffix :| WritesCisco(raw, n, word, slotDigits, cageDigits, suffix) {
      WrittenCiscoParses(raw, n, word, slotDigits, cageDigits, suffix);
    }
  }

  /** A suffix keeps the end of the name free of white space. */
  lemma EndsInDigit(front: string, digits: string, suffix: string, separators: set<char>, subport: int)
    requires AllDigits(digits) && SpellsSubport(suffix, separators, subport)
    ensures IsDigit(Last(front + (digits + suffix)))
  {
  }

  /** Every name a plain vendor spells, padded or not, is read back as what it was built from. */
  lemma PlainReadsBack(left: string, prefix: string, cage: nat, suffix: string, subport: int, right: string)
    requires IsPrefix(prefix) && SpellsSubport(suffix, {'s', '/'}, subport)
    requires forall i :: 0 <= i < |left| ==> IsSpace(left[i])
    requires forall i :: 0 <= i < |right| ==> IsSpace(right[i])
    ensures var raw := prefix + (Decimal(cage) + suffix);
            Parse(Plain, left + raw + right) == Some(InterfaceName(raw, prefix, cage, subport, 0))
  {
    var rest := Decimal(cage) + suffix;
    EndsInDigit(prefix, Decimal(cage), suffix, {'s', '/'}, subport);
    StripTrims(left, prefix + rest, right);
    TakeDecimal(cage, suffix);
    SpelledIsRead(suffix, {'s', '/'}, subport);
    ParsePlainParts(prefix, rest, cage, suffix, subport);
  }

  /** What follows an NX-OS prefix. */
  function SlotAndPort(slot: nat, cage: nat, suffix: string): string {
    Decimal(slot) + (['/'] + (Decimal(cage) + suffix))
  }

  lemma SlotAndPortIsRead(slot: nat, cage: nat, suffix: string, subport: int)
    requires SpellsSubport(suffix, {'/'}, subport)
    ensures var rest2 := ['/'] + (Decimal(cage) + suffix);
            && TakeNumber(SlotAndPort(slot, cage, suffix)) == Some((slot, rest2))
            && TakeNumber(rest2[1..]) == Some((cage, suffix))
  {
    var tail := Decimal(cage) + suffix;
    TakeDecimal(slot, ['/'] + tail);
    assert (['/'] + tail)[1..] == tail;
    TakeDecimal(cage, suffix);
  }

  lemma SlotAndPortEnds(slot: nat, cage: nat, suffix: string, subport: int)
    requires SpellsSubport(suffix, {'/'}, subport)
    ensures var rest := SlotAndPort(slot, cage, suffix);
            rest != "" && IsDigit(rest[0]) && IsDigit(Last(rest))
  {
  }

  lemma LastOfConcat(a: string, b: string)
    requires b != ""
    ensures Last(a + b) == Last(b)
  {
  }

  /** The same for NX-OS: the abbreviated prefix gives the same interface as the full one. */
  lemma CiscoReadsBack(left: string, prefix: string, slot: nat, cage: nat, suffix: string, subport: int, right: string)
    requires (prefix == "Ethernet" || prefix == "Eth") && SpellsSubport(suffix, {'/'}, subport)
    requires forall i :: 0 <= i < |left| ==> IsSpace(left[i])
    requires forall i :: 0 <= i < |right| ==> IsSpace(right[i])
    ensures var raw := prefix + SlotAndPort(slot, cage, suffix);
            Parse(Cisco, left + raw + right) == Some(InterfaceName(raw, "Ethernet", cage, subport, slot))
  {
    var rest := SlotAndPort(slot, cage, suffix);
    SlotAndPortEnds(slot, cage, suffix, subport);
    LastOfConcat(prefix, rest);
    StripTrims(left, prefix + rest, right);
    SlotAndPortIsRead(slot, cage, suffix, subport);
    SpelledIsRead(suffix, {'/'}, subport);
    ParseCiscoParts(prefix, rest, slot, ['/'] + (Decimal(cage) + suffix), cage, suffix, subport);
  }

  // ---------------------------------------------------------------------------------------------
  // Switch-port order

  predicate CageLeq(a: Cage, b: Cage) {
    if a.prefix != b.prefix then StrLeq(a.prefix, b.prefix)
    else if a.slot != b.slot then a.slot < b.slot
    else a.number <= b.number
  }

  predicate CageLess(a: Cage, b: Cage) {
    a != b && CageLeq(a, b)
  }

  /** sort_key order: prefix, slot, cage, subport. */
  predicate KeyLeq(a: InterfaceName, b: InterfaceName) {
    if a.Where() == b.Where() then a.subport <= b.subport else CageLeq(a.Where(), b.Where())
  }

  predicate SameKey(a: InterfaceName, b: InterfaceName) {
    a.Where() == b.Where() && a.subport == b.subport
  }

  lemma CageOrder(a: Cage, b: Cage)
    ensures CageLeq(a, b) || CageLeq(b, a)
    ensures CageLeq(a, b) && CageLeq(b, a) ==> a == b
  {
    StrLeqTotal(a.prefix, b.prefix);
  }

  lemma CageTransitive(a: Cage, b: Cage, c: Cage)
    requires CageLeq(a, b) && CageLeq(b, c)
    ensures CageLeq(a, c)
  {
    StrLeqTotal(a.prefix, b.prefix);
    StrLeqTotal(b.prefix, c.prefix);
    StrLeqTotal(a.prefix, c.prefix);
    if StrLeq(a.prefix, b.prefix) && StrLeq(b.prefix, c.prefix) {
      StrLeqTransitive(a.prefix, b.prefix, c.prefix);
    }
  }

  lemma KeyOrder()
    ensures TotalPreorder(KeyLeq)
  {
    forall x, y ensures KeyLeq(x, y) || KeyLeq(y, x) {
      CageOrder(x.Where(), y.Where());
    }
    forall x, y, z | KeyLeq(x, y) && KeyLeq(y, z) ensures KeyLeq(x, z) {
      CageOrder(x.Where(), y.Where());
      CageOrder(y.Where(), z.Where());
      if CageLeq(x.Where(), y.Where()) && CageLeq(y.Where(), z.Where()) {
        CageTransitive(x.Where(), y.Where(), z.Where());
      }
      CageOrder(x.Where(), z.Where());
    }
  }

  // ---------------------------------------------------------------------------------------------
  // Learning

  function ParseAll(vendor: Vendor, names: seq<string>): seq<Option<InterfaceName>> {
    seq(|names|, i requires 0 <= i < |names| => Parse(vendor, names[i]))
  }

  /** The names that parsed, the first of each spelling, in order: setdefault by raw name. */
  function FirstOfEach(parsed: seq<Option<InterfaceName>>): seq<InterfaceName> {
    if parsed == [] then []
    else
      var before := FirstOfEach(parsed[..|parsed| - 1]);
      AddedOnce(before, Last(parsed))
  }

  function AddedOnce(before: seq<InterfaceName>, name: Option<InterfaceName>): seq<InterfaceName> {
    if name.None? || exists n :: n in before && n.raw == name.value.raw then before else before + [name.value]
  }

  lemma FirstOfEachSnoc(parsed: seq<Option<InterfaceName>>, i: nat)
    requires i < |parsed|
    ensures FirstOfEach(parsed[..i + 1]) == AddedOnce(FirstOfEach(parsed[..i]), parsed[i])
  {
    assert parsed[..i + 1][..i] == parsed[..i];
  }

  /** The names in a recognised notation, once each, in the order they were first reported. */
  function Recognised(vendor: Vendor, names: seq<string>): seq<InterfaceName> {
    FirstOfEach(ParseAll(vendor, names))
  }

  function Ordered(vendor: Vendor, names: seq<string>): seq<InterfaceName> {
    Sort(KeyLeq, Recognised(vendor, names))
  }

  /** The last element with the property. */
  function LastWhere<T>(p: T -> bool, s: seq<T>): Option<T> {
    if s == [] then None else if p(Last(s)) then Some(Last(s)) else LastWhere(p, s[..|s| - 1])
  }

  /** The order in force after a series of learn calls: a call that maps nothing changes nothing. */
  function AfterLearning(vendor: Vendor, calls: seq<seq<string>>): seq<InterfaceName> {
    match LastWhere(names => Recognised(vendor, names) != [], calls)
    case None => []
    case Some(names) => Ordered(vendor, names)
  }

  /** The raw name of the interface with this port ID. */
  function NameOf(ordered: seq<InterfaceName>, id: int): string {
    if 1 <= id <= |ordered| then ordered[id - 1].raw else ""
  }

  function IdToName(ordered: seq<InterfaceName>): map<int, string> {
    map id | 1 <= id <= |ordered| :: NameOf(ordered, id)
  }

  ghost predicate DistinctNames(ordered: seq<InterfaceName>) {
    forall i, j :: 0 <= i < j < |ordered| ==> ordered[i].raw != ordered[j].raw
  }

  /** How many interfaces share the cage. */
  function Members(ordered: seq<InterfaceName>, cage: Cage): nat {
    if ordered == [] then 0
    else Members(ordered[..|ordered| - 1], cage) + if Last(ordered).Where() == cage then 1 else 0
  }

  predicate HasBreakout(ordered: seq<InterfaceName>) {
    exists name :: name in ordered && Members(ordered, name.Where()) > 1
  }

  lemma {:induction false} FirstOfEachSpec(parsed: seq<Option<InterfaceName>>)
    requires forall m: InterfaceName, n: InterfaceName ::
               Some(m) in parsed && Some(n) in parsed && m.raw == n.raw ==> m == n
    ensures DistinctNames(FirstOfEach(parsed))
    ensures forall n :: n in FirstOfEach(parsed) <==> Some(n) in parsed
  {
    if parsed == [] {
    } else {
      var front := parsed[..|parsed| - 1];
      assert parsed == front + [Last(parsed)];
      FirstOfEachSpec(front);
    }
  }

  /** When two spellings with one raw name parse alike, the first of each is every name that parses. */
  lemma FirstOfEachParsed(parse: string -> Option<InterfaceName>, names: seq<string>,
                          parsed: seq<Option<InterfaceName>>)
    requires |parsed| == |names| && forall i :: 0 <= i < |names| ==> parsed[i] == parse(names[i])
    requires forall a, b ::
               parse(a).Some? && parse(b).Some? && parse(a).value.raw == parse(b).value.raw ==> parse(a) == parse(b)
    ensures DistinctNames(FirstOfEach(parsed))
    ensures forall n :: n in FirstOfEach(parsed) <==> exists s :: s in names && parse(s) == Some(n)
  {
    forall m: InterfaceName, n: InterfaceName | Some(m) in parsed && Some(n) in parsed && m.raw == n.raw
      ensures m == n
    {
      var i :| 0 <= i < |parsed| && parsed[i] == Some(m);
      var j :| 0 <= j < |parsed| && parsed[j] == Some(n);
      assert parse(names[i]) == Some(m) && parse(names[j]) == Some(n);
    }
    FirstOfEachSpec(parsed);
    forall n ensures Some(n) in parsed <==> exists s :: s in names && parse(s) == Some(n) {
      if i :| 0 <= i < |names| && parse(names[i]) == Some(n) {
        assert parsed[i] == Some(n);
      }
    }
  }

  /** A name is recognised exactly when some reported spelling trims to it and parses. */
  lemma RecognisedSpec(vendor: Vendor, names: seq<string>)
    ensures DistinctNames(Recognised(vendor, names))
    ensures forall n :: n in Recognised(vendor, names) <==> exists s :: s in names && Parse(vendor, s) == Some(n)
  {
    var parse: string -> Option<InterfaceName> := s => Parse(vendor, s);
    forall a, b | parse(a).Some? && parse(b).Some? && parse(a).value.raw == parse(b).value.raw
      ensures parse(a) == parse(b)
    {
      SameRawSameName(vendor, a, b);
    }
    FirstOfEachParsed(parse, names, ParseAll(vendor, names));
    assert forall s :: parse(s) == Parse(vendor, s);
  }

  lemma SameRawSameName(vendor: Vendor, a: string, b: string)
    requires Parse(vendor, a).Some? && Parse(vendor, b).Some?
    requires Parse(vendor, a).value.raw == Parse(vendor, b).value.raw
    ensures Parse(vendor, a) == Parse(vendor, b)
  {
  }

  lemma OrderedSpec(vendor: Vendor, names: seq<string>)
    ensures SortedBy(KeyLeq, Ordered(vendor, names)) && DistinctNames(Ordered(vendor, names))
    ensures |Ordered(vendor, names)| == |Recognised(vendor, names)|
    ensures forall n :: n in Ordered(vendor, names) <==> exists s :: s in names && Parse(vendor, s) == Some(n)
  {
    KeyOrder();
    var parsed, ordered := Recognised(vendor, names), Ordered(vendor, names);
    RecognisedSpec(vendor, names);
    SortSpec(KeyLeq, parsed);
    forall i, j | 0 <= i < j < |ordered| ensures ordered[i].raw != ordered[j].raw {
      assert ordered[i] in parsed && ordered[j] in parsed;
    }
  }

  /** learn: what the resolver holds after any series of calls, and how its two maps mirror each other. */
  ghost predicate Holds(ordered: seq<InterfaceName>, idToName: map<int, string>, nameToId: map<string, int>) {
    && idToName == IdToName(ordered)
    && (forall id :: id in idToName ==> idToName[id] in nameToId && nameToId[idToName[id]] == id)
    && (forall name :: name in nameToId ==> nameToId[name] in idToName && idToName[nameToId[name]] == name)
  }

  class PortNameResolver {
    const vendor: Vendor
    var idToName: map<int, string>
    var nameToId: map<string, int>
    var hasBreakout: bool
    ghost var learned: seq<seq<string>>  // the learn calls so far

    ghost predicate Valid()
      reads this
    {
      var ordered := AfterLearning(vendor, learned);
      Holds(ordered, idToName, nameToId) && hasBreakout == HasBreakout(ordered)
    }

    constructor (vendor: Vendor)
      ensures Valid() && this.vendor == vendor && learned == []
    {
      this.vendor := vendor;
      idToName, nameToId, hasBreakout := map[], map[], false;
      learned := [];
    }

    method Learn(names: seq<string>) returns (mapped: nat)
      requires Valid()
      modifies this
      ensures Valid() && learned == old(learned) + [names]
      ensures mapped == |Recognised(vendor, names)|
      ensures mapped == 0 ==>
                idToName == old(idToName) && nameToId == old(nameToId) && hasBreakout == old(hasBreakout)
    {
      var parsed := ReadNames(vendor, names);
      learned := learned + [names];
      assert learned[..|learned| - 1] == old(learned);
      if parsed == [] {
        return 0;
      }

      var ordered := Sort(KeyLeq, parsed);
      OrderedSpec(vendor, names);
      idToName, nameToId := NumberNames(ordered);
      hasBreakout := CountCages(ordered);
      mapped := |ordered|;
    }

    /** The port ID of an interface name, or None when it is not mapped. */
    method PortId(name: string) returns (id: Option<int>)
      requires Valid()
      ensures id.Some? <==> exists n :: n in AfterLearning(vendor, learned) && n.raw == Strip(name)
      ensures id.Some? ==> id.value in idToName && idToName[id.value] == Strip(name)
    {
      var trimmed := Strip(name);
      id := if trimmed in nameToId then Some(nameToId[trimmed]) else None;
      HeldMapsMirror(AfterLearning(vendor, learned), idToName, nameToId);
    }

    method Name(id: int) returns (name: Option<string>)
      requires Valid()
      ensures var ordered := AfterLearning(vendor, learned);
              name == if 1 <= id <= |ordered| then Some(ordered[id - 1].raw) else None
    {
      name := if id in idToName then Some(idToName[id]) else None;
    }
  }

  /** Parse every reported name and keep the first of each. */
  method ReadNames(vendor: Vendor, names: seq<string>) returns (parsed: seq<InterfaceName>)
    ensures parsed == Recognised(vendor, names)
  {
    parsed := [];
    for i := 0 to |names|
      invariant parsed == FirstOfEach(ParseAll(vendor, names)[..i])
    {
      var name := Parse(vendor, names[i]);
      FirstOfEachSnoc(ParseAll(vendor, names), i);
      if name.Some? && !exists n :: n in parsed && n.raw == name.value.raw {
        parsed := parsed + [name.value];
      }
    }
    ghost var all := ParseAll(vendor, names);
    assert all[..|names|] == all;
  }

  /** Number the names from 1, then invert the numbering. */
  method NumberNames(ordered: seq<InterfaceName>) returns (idToName: map<int, string>, nameToId: map<string, int>)
    requires DistinctNames(ordered)
    ensures Holds(ordered, idToName, nameToId)
  {
    idToName, nameToId := map[], map[];
    for i := 0 to |ordered|
      invariant forall id :: id in idToName <==> 1 <= id <= i
      invariant forall id :: 1 <= id <= i ==> idToName[id] == ordered[id - 1].raw
      invariant forall id :: 1 <= id <= i ==> idToName[id] in nameToId && nameToId[idToName[id]] == id
      invariant forall n :: n in nameToId ==> 1 <= nameToId[n] <= i && idToName[nameToId[n]] == n
    {
      idToName := idToName[i + 1 := ordered[i].raw];
      nameToId := nameToId[ordered[i].raw := i + 1];
    }
  }

  /** Count the interfaces of each cage; a breakout is a cage counted more than once. */
  method CountCages(ordered: seq<InterfaceName>) returns (breakout: bool)
    ensures breakout == HasBreakout(ordered)
  {
    var perCage: map<Cage, nat> := map[];
    for i := 0 to |ordered|
      invariant perCage.Keys == set n | n in ordered[..i] :: n.Where()
      invariant forall c :: c in perCage ==> perCage[c] == Members(ordered[..i], c)
    {
      var cage := ordered[i].Where();
      assert ordered[..i + 1][..i] == ordered[..i] && ordered[..i + 1] == ordered[..i] + [ordered[i]];
      MembersWhenNone(ordered[..i], cage);
      perCage := perCage[cage := (if cage in perCage then perCage[cage] else 0) + 1];
    }
    assert ordered[..|ordered|] == ordered;
    breakout := exists c :: c in perCage && perCage[c] > 1;
    if n :| n in ordered && Members(ordered, n.Where()) > 1 {
      assert n.Where() in perCage;
    }
  }

  lemma {:induction false} MembersWhenNone(ordered: seq<InterfaceName>, cage: Cage)
    ensures Members(ordered, cage) > 0 <==> exists n :: n in ordered && n.Where() == cage
  {
    if ordered == [] {
    } else {
      var front := ordered[..|ordered| - 1];
      MembersWhenNone(front, cage);
      assert ordered == front + [Last(ordered)];
    }
  }

  // ---------------------------------------------------------------------------------------------
  // What the numbering means

  lemma {:induction false} LastWhereSpec<T>(p: T -> bool, s: seq<T>) returns (k: int)
    ensures -1 <= k < |s| && forall j :: k < j < |s| ==> !p(s[j])
    ensures k >= 0 ==> p(s[k]) && LastWhere(p, s) == Some(s[k])
    ensures k == -1 ==> LastWhere(p, s) == None
  {
    if s == [] {
      k := -1;
    } else if p(Last(s)) {
      k := |s| - 1;
    } else {
      k := LastWhereSpec(p, s[..|s| - 1]);
    }
  }

  lemma HeldMapsMirror(ordered: seq<InterfaceName>, idToName: map<int, string>, nameToId: map<string, int>)
    requires Holds(ordered, idToName, nameToId)
    ensures forall id :: id in idToName <==> 1 <= id <= |ordered|
    ensures forall id :: id in idToName ==> idToName[id] == ordered[id - 1].raw
    ensures forall i, j :: i in idToName && j in idToName && idToName[i] == idToName[j] ==> i == j
    ensures forall name :: name in nameToId <==> exists n :: n in ordered && n.raw == name
  {
    forall name ensures name in nameToId <==> exists n :: n in ordered && n.raw == name {
      if name in nameToId {
        assert ordered[nameToId[name] - 1].raw == name;
      }
      if n :| n in ordered && n.raw == name {
        var i :| 0 <= i < |ordered| && ordered[i] == n;
        assert (i + 1) in idToName;
      }
    }
  }

  /**
   What a resolver holds after any learn calls: a bijection between 1..N and the N names that the
   last call recognising any name reported, each once, in sort-key order.
   */
  lemma LearnedMapping(vendor: Vendor, calls: seq<seq<string>>, idToName: map<int, string>, nameToId: map<string, int>)
      returns (k: int)
    requires Holds(AfterLearning(vendor, calls), idToName, nameToId)
    ensures -1 <= k < |calls| && forall j :: k < j < |calls| ==> Recognised(vendor, calls[j]) == []
    ensures var ordered := AfterLearning(vendor, calls);
            && SortedBy(KeyLeq, ordered) && DistinctNames(ordered)
            && (forall n :: n in ordered <==> k >= 0 && exists s :: s in calls[k] && Parse(vendor, s) == Some(n))
            && (forall id :: id in idToName <==> 1 <= id <= |ordered|)
            && (forall id :: id in idToName ==> idToName[id] == ordered[id - 1].raw)
            && (forall i, j :: i in idToName && j in idToName && idToName[i] == idToName[j] ==> i == j)
            && (forall name :: name in nameToId <==> exists n :: n in ordered && n.raw == name)
  {
    k := LastWhereSpec(names => Recognised(vendor, names) != [], calls);
    if k >= 0 {
      OrderedSpec(vendor, calls[k]);
    }
    HeldMapsMirror(AfterLearning(vendor, calls), idToName, nameToId);
  }

  /** Without ties in the sort key the order, and so every port ID, depends only on the set of names reported. */
  lemma OrderAndRepetitionDoNotMatter(vendor: Vendor, a: seq<string>, b: seq<string>)
    requires forall s :: s in a <==> s in b
    requires forall m, n :: m in Recognised(vendor, a) && n in Recognised(vendor, a) && SameKey(m, n) ==> m == n
    ensures Ordered(vendor, a) == Ordered(vendor, b)
  {
    KeyOrder();
    OrderedSpec(vendor, a);
    OrderedSpec(vendor, b);
    RecognisedSpec(vendor, a);
    var s, t := Ordered(vendor, a), Ordered(vendor, b);
    forall n ensures n in s <==> n in t {
      assert (exists r :: r in a && Parse(vendor, r) == Some(n)) <==>
             (exists r :: r in b && Parse(vendor, r) == Some(n));
    }
    forall x, y | x in s && y in s && KeyLeq(x, y) && KeyLeq(y, x) ensures x == y {
      CageOrder(x.Where(), y.Where());
      assert SameKey(x, y);
    }
    SortedUnique(KeyLeq, s, t);
  }

  /** Names that tie get their IDs in the order they were first reported in. */
  lemma TiesKeepReportOrder(vendor: Vendor, names: seq<string>, m: InterfaceName)
    ensures Filter((n: InterfaceName) => SameKey(m, n), Ordered(vendor, names)) ==
            Filter((n: InterfaceName) => SameKey(m, n), Recognised(vendor, names))
  {
    var tied := (n: InterfaceName) => SameKey(m, n);
    TieKeys(m);
    SortStable(KeyLeq, tied, Recognised(vendor, names));
  }

  lemma {:induction false} FirstOfEachGrows(parsed: seq<Option<InterfaceName>>, more: seq<Option<InterfaceName>>)
    ensures FirstOfEach(parsed) <= FirstOfEach(parsed + more)
  {
    if more == [] {
      assert parsed + more == parsed;
    } else {
      FirstOfEachGrows(parsed, more[..|more| - 1]);
      assert (parsed + more)[..|parsed + more| - 1] == parsed + more[..|more| - 1];
    }
  }

  lemma FirstOfPair(m: InterfaceName, n: InterfaceName)
    requires m.raw != n.raw
    ensures FirstOfEach([Some(m), Some(n)]) == [m, n]
  {
    assert [Some(m), Some(n)][..1] == [Some(m)] && [Some(m)][..0] == [];
    assert FirstOfEach([Some(m)]) == [m];
  }

  /** Two names reported first are recognised first. */
  lemma PairIsRecognised(vendor: Vendor, s: string, t: string, a: seq<string>, m: InterfaceName, n: InterfaceName)
    requires Parse(vendor, s) == Some(m) && Parse(vendor, t) == Some(n) && m.raw != n.raw
    ensures [m, n] <= Recognised(vendor, [s, t] + a)
  {
    var names := [s, t] + a;
    assert names[0] == s && names[1] == t;
    var parsed := ParseAll(vendor, names);
    SplitPair(parsed);
    PairComesFirst([parsed[0], parsed[1]], parsed[2..], m, n);
  }

  lemma SplitPair<T>(s: seq<T>)
    requires |s| >= 2
    ensures s == [s[0], s[1]] + s[2..]
  {
  }

  lemma PairComesFirst(pair: seq<Option<InterfaceName>>, more: seq<Option<InterfaceName>>, m: InterfaceName,
                       n: InterfaceName)
    requires pair == [Some(m), Some(n)] && m.raw != n.raw
    ensures [m, n] <= FirstOfEach(pair + more)
  {
    FirstOfPair(m, n);
    FirstOfEachGrows(pair, more);
  }

  ghost predicate MappedBefore(ordered: seq<InterfaceName>, m: InterfaceName, n: InterfaceName) {
    exists i, j :: 0 <= i < j < |ordered| && ordered[i] == m && ordered[j] == n
  }

  lemma ReportedFirstIsMappedFirst(vendor: Vendor, s: string, t: string, a: seq<string>, m: InterfaceName,
                                   n: InterfaceName)
    requires Parse(vendor, s) == Some(m) && Parse(vendor, t) == Some(n) && m.raw != n.raw && SameKey(m, n)
    ensures MappedBefore(Ordered(vendor, [s, t] + a), m, n)
  {
    PairIsRecognised(vendor, s, t, a, m, n);
    FoundFirstIsMappedFirst(Recognised(vendor, [s, t] + a), m, n);
  }

  lemma FoundFirstIsMappedFirst(found: seq<InterfaceName>, m: InterfaceName, n: InterfaceName)
    requires [m, n] <= found && SameKey(m, n)
    ensures MappedBefore(Sort(KeyLeq, found), m, n)
  {
    assert found == [m, n] + found[2..];
    TieKeys(m);
    var k, l := FirstTwoStay(KeyLeq, (x: InterfaceName) => SameKey(m, x), m, n, found[2..]);
  }

  lemma TieKeys(m: InterfaceName)
    ensures forall a, b :: SameKey(m, a) && SameKey(m, b) ==> KeyLeq(a, b)
  {
  }

  /**
   With a tie the order does matter, whatever else is reported: the two names' IDs are in the order
   they are reported in, and so the two orders give different mappings.
   */
  lemma TiesFollowReportOrder(vendor: Vendor, a: seq<string>, s: string, t: string, m: InterfaceName, n: InterfaceName)
    requires Parse(vendor, s) == Some(m) && Parse(vendor, t) == Some(n) && m != n && SameKey(m, n)
    ensures MappedBefore(Ordered(vendor, [s, t] + a), m, n) && MappedBefore(Ordered(vendor, [t, s] + a), n, m)
    ensures Ordered(vendor, [s, t] + a) != Ordered(vendor, [t, s] + a)
  {
    SameRaw(vendor, s, t);
    ReportedFirstIsMappedFirst(vendor, s, t, a, m, n);
    ReportedFirstIsMappedFirst(vendor, t, s, a, n, m);
    OrderedSpec(vendor, [s, t] + a);
    DistinctHaveOneOrder(Ordered(vendor, [s, t] + a), m, n);
  }

  lemma SameRaw(vendor: Vendor, s: string, t: string)
    requires Parse(vendor, s).Some? && Parse(vendor, t).Some?
    ensures Parse(vendor, s).value.raw == Parse(vendor, t).value.raw <==> Parse(vendor, s) == Parse(vendor, t)
  {
    if Parse(vendor, s).value.raw == Parse(vendor, t).value.raw {
      SameRawSameName(vendor, s, t);
    }
  }

  lemma DistinctHaveOneOrder(ordered: seq<InterfaceName>, m: InterfaceName, n: InterfaceName)
    requires DistinctNames(ordered)
    ensures !(MappedBefore(ordered, m, n) && MappedBefore(ordered, n, m))
  {
  }

  /** The same names were reported, in whatever order and however often. */
  ghost predicate SameReport(a: seq<string>, b: seq<string>) {
    forall s :: s in a <==> s in b
  }

  ghost predicate NoTies(vendor: Vendor, a: seq<string>) {
    forall m, n :: m in Recognised(vendor, a) && n in Recognised(vendor, a) && SameKey(m, n) ==> m == n
  }

  /** All reports of the same names give one mapping exactly when no two recognised names tie. */
  lemma OneMappingIffNoTies(vendor: Vendor, a: seq<string>)
    ensures (forall b :: SameReport(a, b) ==> Ordered(vendor, b) == Ordered(vendor, a)) <==> NoTies(vendor, a)
  {
    if NoTies(vendor, a) {
      forall b | SameReport(a, b) ensures Ordered(vendor, b) == Ordered(vendor, a) {
        OrderAndRepetitionDoNotMatter(vendor, a, b);
      }
    } else {
      var m, n :| m in Recognised(vendor, a) && n in Recognised(vendor, a) && SameKey(m, n) && m != n;
      var b, c := TieGivesTwoMappings(vendor, a, m, n);
    }
  }

  lemma TieGivesTwoMappings(vendor: Vendor, a: seq<string>, m: InterfaceName, n: InterfaceName)
      returns (b: seq<string>, c: seq<string>)
    requires m in Recognised(vendor, a) && n in Recognised(vendor, a) && SameKey(m, n) && m != n
    ensures SameReport(a, b) && SameReport(a, c) && Ordered(vendor, b) != Ordered(vendor, c)
  {
    RecognisedSpec(vendor, a);
    var s :| s in a && Parse(vendor, s) == Some(m);
    var t :| t in a && Parse(vendor, t) == Some(n);
    b, c := [s, t] + a, [t, s] + a;
    TiesFollowReportOrder(vendor, a, s, t, m, n);
  }

  /** Such ties exist: a cage number may be written with leading zeros. */
  lemma SwpIsCageOne(name: string)
    requires name == "swp1" || name == "swp01"
    ensures Parse(Plain, name) == Some(InterfaceName(name, "swp", 1, NO_SUBPORT, 0))
  {
    var digits := name[3..];
    assert digits[..|digits| - 1] == "" || digits[..|digits| - 1] == "0";
    assert "0"[..0] == "" && "1"[..0] == "";
    StripNothing(name);
    RunLengthOf(IsDigit, digits, "");
    assert digits + "" == digits && digits[..|digits|] == digits && digits[|digits|..] == "";
    assert ParseNat("0") == 0;
    ParsePlainParts("swp", digits, 1, "", NO_SUBPORT);
    assert "swp" + digits == name;
  }

  /** The cages that come before the given one. */
  ghost function Before(ordered: seq<InterfaceName>, cage: Cage): set<Cage> {
    set n | n in ordered && CageLess(n.Where(), cage) :: n.Where()
  }

  /** How many interfaces beyond the first these cages hold, summed over the cages. */
  ghost function Extra(ordered: seq<InterfaceName>, cages: set<Cage>): int {
    if cages == {} then 0
    else
      var c :| c in cages;
      Members(ordered, c) - 1 + Extra(ordered, cages - {c})
  }

  /** The 1-based place of the i-th interface within its own cage. */
  ghost function Place(ordered: seq<InterfaceName>, i: nat): nat
    requires i < |ordered|
  {
    Members(ordered[..i], ordered[i].Where()) + 1
  }

  /** How many interfaces sit in one of these cages. */
  ghost function CountIn(ordered: seq<InterfaceName>, cages: set<Cage>): nat {
    if ordered == [] then 0
    else CountIn(ordered[..|ordered| - 1], cages) + if Last(ordered).Where() in cages then 1 else 0
  }

  lemma {:induction false} CountOneCageLess(ordered: seq<InterfaceName>, cages: set<Cage>, c: Cage)
    requires c in cages
    ensures CountIn(ordered, cages) == Members(ordered, c) + CountIn(ordered, cages - {c})
  {
    if ordered == [] {
    } else {
      CountOneCageLess(ordered[..|ordered| - 1], cages, c);
    }
  }

  lemma {:induction false} CountNoCages(ordered: seq<InterfaceName>)
    ensures CountIn(ordered, {}) == 0
  {
    if ordered == [] {
    } else {
      CountNoCages(ordered[..|ordered| - 1]);
    }
  }

  lemma {:induction false} CountIsExtra(ordered: seq<InterfaceName>, cages: set<Cage>)
    ensures CountIn(ordered, cages) == Extra(ordered, cages) + |cages|
  {
    if cages == {} {
      CountNoCages(ordered);
    } else {
      var c :| c in cages && Extra(ordered, cages) == Members(ordered, c) - 1 + Extra(ordered, cages - {c});
      CountOneCageLess(ordered, cages, c);
      CountIsExtra(ordered, cages - {c});
    }
  }

  /** Up to an interface, everything is in an earlier cage or in its own; after it, nothing is in an earlier one. */
  lemma {:induction false} CountBefore(ordered: seq<InterfaceName>, i: nat, k: nat)
    requires SortedBy(KeyLeq, ordered) && i < |ordered| && k <= |ordered|
    ensures var c := ordered[i].Where();
            && (k <= i ==> k == CountIn(ordered[..k], Before(ordered, c)) + Members(ordered[..k], c))
            && (k > i ==> CountIn(ordered[..k], Before(ordered, c)) == CountIn(ordered[..i], Before(ordered, c)))
  {
    if k == 0 {
    } else {
      CountBefore(ordered, i, k - 1);
      assert ordered[..k][..k - 1] == ordered[..k - 1];
      CageBeside(ordered, i, k - 1);
    }
  }

  /** What stands before an interface is of its cage or an earlier one, what stands behind of no earlier one. */
  lemma CageBeside(ordered: seq<InterfaceName>, i: nat, k: nat)
    requires SortedBy(KeyLeq, ordered) && i < |ordered| && k < |ordered|
    ensures var c, d := ordered[i].Where(), ordered[k].Where();
            && (k < i ==> d == c || d in Before(ordered, c))
            && (k >= i ==> d !in Before(ordered, c))
            && c !in Before(ordered, c)
  {
    var c, d := ordered[i].Where(), ordered[k].Where();
    CageOrder(c, d);
    assert k < i ==> KeyLeq(ordered[k], ordered[i]);
    assert k > i ==> KeyLeq(ordered[i], ordered[k]);
    assert k < i && c != d ==> ordered[k] in ordered && CageLess(d, c);
  }

  /**
   An interface's port ID is the number of cages before its own, plus the extra interfaces those
   cages hold, plus its place in its own cage.
   */
  lemma PortIdFormula(ordered: seq<InterfaceName>, i: nat)
    requires SortedBy(KeyLeq, ordered) && i < |ordered|
    ensures var before := Before(ordered, ordered[i].Where());
            i + 1 == |before| + Extra(ordered, before) + Place(ordered, i)
  {
    var before := Before(ordered, ordered[i].Where());
    CountBefore(ordered, i, i);
    CountBefore(ordered, i, |ordered|);
    assert ordered[..|ordered|] == ordered;
    CountIsExtra(ordered, before);
  }

  /** A cage's rank among the cages, from 1. */
  ghost function Rank(ordered: seq<InterfaceName>, cage: Cage): nat {
    |Before(ordered, cage)| + 1
  }

  lemma {:induction false} MembersMonotone(ordered: seq<InterfaceName>, i: nat, cage: Cage)
    requires i <= |ordered|
    ensures Members(ordered[..i], cage) <= Members(ordered, cage)
  {
    if i == |ordered| {
      assert ordered[..i] == ordered;
    } else {
      var front := ordered[..|ordered| - 1];
      MembersMonotone(front, i, cage);
      assert front[..i] == ordered[..i];
    }
  }

  lemma {:induction false} ExtraNonNegative(ordered: seq<InterfaceName>, cages: set<Cage>)
    requires forall c :: c in cages ==> exists n :: n in ordered && n.Where() == c
    ensures Extra(ordered, cages) >= 0
    ensures !HasBreakout(ordered) ==> Extra(ordered, cages) == 0
  {
    if cages == {} {
    } else {
      var c :| c in cages && Extra(ordered, cages) == Members(ordered, c) - 1 + Extra(ordered, cages - {c});
      MembersWhenNone(ordered, c);
      ExtraNonNegative(ordered, cages - {c});
    }
  }

  /** The last interface of a cage has the place that is the cage's size. */
  lemma {:induction false} LastPlace(ordered: seq<InterfaceName>, cage: Cage) returns (i: nat)
    requires Members(ordered, cage) > 0
    ensures i < |ordered| && ordered[i].Where() == cage && Place(ordered, i) == Members(ordered, cage)
  {
    var front := ordered[..|ordered| - 1];
    if Last(ordered).Where() == cage {
      i := |ordered| - 1;
    } else {
      i := LastPlace(front, cage);
      assert front[..i] == ordered[..i];
    }
  }

  lemma IdAtLeastRank(ordered: seq<InterfaceName>, i: nat)
    requires SortedBy(KeyLeq, ordered) && i < |ordered|
    ensures i + 1 >= Rank(ordered, ordered[i].Where()) + Place(ordered, i) - 1
    ensures !HasBreakout(ordered) ==> i + 1 == Rank(ordered, ordered[i].Where())
  {
    PortIdFormula(ordered, i);
    ExtraNonNegative(ordered, Before(ordered, ordered[i].Where()));
    if !HasBreakout(ordered) {
      PlaceAlone(ordered, i);
    }
  }

  lemma PlaceAlone(ordered: seq<InterfaceName>, i: nat)
    requires i < |ordered| && !HasBreakout(ordered)
    ensures Place(ordered, i) == 1
  {
    MembersMonotone(ordered, i + 1, ordered[i].Where());
    assert ordered[..i + 1][..i] == ordered[..i];
    assert ordered[i] in ordered;
  }

  /** No breakout means exactly that every port ID is its cage's rank. */
  lemma NoBreakoutIffIdsAreRanks(ordered: seq<InterfaceName>)
    requires SortedBy(KeyLeq, ordered)
    ensures !HasBreakout(ordered) <==> forall i :: 0 <= i < |ordered| ==> i + 1 == Rank(ordered, ordered[i].Where())
  {
    forall i | 0 <= i < |ordered|
      ensures i + 1 >= Rank(ordered, ordered[i].Where()) + Place(ordered, i) - 1
      ensures !HasBreakout(ordered) ==> i + 1 == Rank(ordered, ordered[i].Where())
    {
      IdAtLeastRank(ordered, i);
    }
    if HasBreakout(ordered) {
      var n :| n in ordered && Members(ordered, n.Where()) > 1;
      var i := LastPlace(ordered, n.Where());
      assert i + 1 > Rank(ordered, ordered[i].Where());
    }
  }

  lemma {:induction false} RangeSize(prefix: string, slot: nat, n: nat)
    ensures var cages := set k | 1 <= k <= n :: Cage(prefix, slot, k); |cages| == n
  {
    var cages := set k | 1 <= k <= n :: Cage(prefix, slot, k);
    if n == 0 {
    } else {
      RangeSize(prefix, slot, n - 1);
      var fewer := set k | 1 <= k <= n - 1 :: Cage(prefix, slot, k);
      assert cages == fewer + {Cage(prefix, slot, n)};
      assert Cage(prefix, slot, n) !in fewer;
    }
  }

  ghost predicate HoldsCage(ordered: seq<InterfaceName>, number: int) {
    exists n :: n in ordered && n.cage == number
  }

  /** All interfaces are on one card, and its cages are exactly 1..m. */
  ghost predicate HoldsCages(ordered: seq<InterfaceName>, prefix: string, slot: nat, m: nat) {
    && (forall n :: n in ordered ==> n.prefix == prefix && n.slot == slot && 1 <= n.cage <= m)
    && (forall k :: 1 <= k <= m ==> HoldsCage(ordered, k))
  }

  /** On one card whose cages are 1..m, none broken out, the port ID is the cage number. */
  lemma WholeCagesKeepTheirNumbers(ordered: seq<InterfaceName>, prefix: string, slot: nat, m: nat, i: nat)
    requires SortedBy(KeyLeq, ordered) && !HasBreakout(ordered) && i < |ordered|
    requires HoldsCages(ordered, prefix, slot, m)
    ensures i + 1 == ordered[i].cage
  {
    NoBreakoutIffIdsAreRanks(ordered);
    var cage := ordered[i].Where();
    assert ordered[i] in ordered;
    var lower := set k | 1 <= k <= cage.number - 1 :: Cage(prefix, slot, k);
    RangeSize(prefix, slot, cage.number - 1);
    forall c ensures c in lower <==> c in Before(ordered, cage) {
      if c in lower {
        assert HoldsCage(ordered, c.number);
        var n :| n in ordered && n.cage == c.number;
        assert n.Where() == c;
      }
    }
    assert lower == Before(ordered, cage);
  }

  lemma CageIsPlace(ordered: seq<InterfaceName>, prefix: string, slot: nat, m: nat)
    requires SortedBy(KeyLeq, ordered) && !HasBreakout(ordered) && HoldsCages(ordered, prefix, slot, m)
    ensures forall i :: 0 <= i < |ordered| ==> ordered[i].cage == i + 1
  {
    forall i | 0 <= i < |ordered| ensures ordered[i].cage == i + 1 {
      WholeCagesKeepTheirNumbers(ordered, prefix, slot, m, i);
    }
  }

  // ---------------------------------------------------------------------------------------------
  // What a resolver answers

  lemma LearnedIsSorted(r: PortNameResolver)
    requires r.Valid()
    ensures SortedBy(KeyLeq, AfterLearning(r.vendor, r.learned))
  {
    var k := LearnedMapping(r.vendor, r.learned, r.idToName, r.nameToId);
  }

  /** The interface that holds a mapped name. */
  ghost function Holder(r: PortNameResolver, name: string): (n: InterfaceName)
    reads r
    requires r.Valid() && name in r.nameToId
    ensures n.raw == name
  {
    AfterLearning(r.vendor, r.learned)[r.nameToId[name] - 1]
  }

  /** By prefix, then slot, then cage, then subport, a name without one ahead of any. */
  ghost predicate ComesFirst(m: InterfaceName, n: InterfaceName) {
    || StrLess(m.prefix, n.prefix)
    || (m.prefix == n.prefix && m.slot < n.slot)
    || (m.prefix == n.prefix && m.slot == n.slot && m.cage < n.cage)
    || (m.prefix == n.prefix && m.slot == n.slot && m.cage == n.cage && m.subport < n.subport)
  }

  lemma ComesFirstInOrder(m: InterfaceName, n: InterfaceName)
    requires ComesFirst(m, n)
    ensures KeyLeq(m, n) && !KeyLeq(n, m)
  {
    StrLeqSpec(m.prefix, n.prefix);
    StrLeqTotal(m.prefix, n.prefix);
    assert m.prefix == n.prefix ==> !StrLess(m.prefix, n.prefix);
  }

  lemma RawParsesAlike(vendor: Vendor, s: string, n: InterfaceName)
    requires Parse(vendor, s) == Some(n)
    ensures Parse(vendor, n.raw) == Some(n)
  {
    StripStripped(s);
    assert n.raw == Strip(s);
  }

  lemma HolderIsParsed(r: PortNameResolver, name: string)
    requires r.Valid() && name in r.nameToId
    ensures Parse(r.vendor, name) == Some(Holder(r, name))
  {
    var k := LearnedMapping(r.vendor, r.learned, r.idToName, r.nameToId);
    var n := Holder(r, name);
    assert n in AfterLearning(r.vendor, r.learned);
    var s :| s in r.learned[k] && Parse(r.vendor, s) == Some(n);
    RawParsesAlike(r.vendor, s, n);
  }

  /** Of two mapped names the one whose parts come first has the smaller ID, unless all their parts are equal. */
  lemma IdsFollowParts(r: PortNameResolver, a: string, b: string)
    requires r.Valid() && a in r.nameToId && b in r.nameToId && a != b
    ensures Parse(r.vendor, a).Some? && Parse(r.vendor, b).Some?
    ensures var m, n := Parse(r.vendor, a).value, Parse(r.vendor, b).value;
            && (ComesFirst(m, n) ==> r.nameToId[a] < r.nameToId[b])
            && (ComesFirst(n, m) ==> r.nameToId[b] < r.nameToId[a])
            && (ComesFirst(m, n) || ComesFirst(n, m)
                || (m.prefix == n.prefix && m.slot == n.slot && m.cage == n.cage && m.subport == n.subport))
  {
    HolderIsParsed(r, a);
    HolderIsParsed(r, b);
    LearnedIsSorted(r);
    var m, n := Holder(r, a), Holder(r, b);
    if ComesFirst(m, n) {
      ComesFirstInOrder(m, n);
    }
    if ComesFirst(n, m) {
      ComesFirstInOrder(n, m);
    }
    StrLeqSpec(m.prefix, n.prefix);
    StrLeqSpec(n.prefix, m.prefix);
    StrLeqTotal(m.prefix, n.prefix);
  }

  /** The ID a resolver gives a name: cages before, what they hold beyond the first, and the place in its own cage. */
  lemma MappedIds(r: PortNameResolver, name: string)
    requires r.Valid() && name in r.nameToId
    ensures var ordered, id := AfterLearning(r.vendor, r.learned), r.nameToId[name];
            var before := Before(ordered, Holder(r, name).Where());
            id == |before| + Extra(ordered, before) + Place(ordered, id - 1)
  {
    LearnedIsSorted(r);
    PortIdFormula(AfterLearning(r.vendor, r.learned), r.nameToId[name] - 1);
  }

  /** has_breakout is false exactly when every mapped name's ID is its cage's rank. */
  lemma BreakoutShiftsIds(r: PortNameResolver)
    requires r.Valid()
    ensures !r.hasBreakout <==>
            forall name :: name in r.nameToId ==>
              r.nameToId[name] == Rank(AfterLearning(r.vendor, r.learned), Holder(r, name).Where())
  {
    var ordered := AfterLearning(r.vendor, r.learned);
    LearnedIsSorted(r);
    NoBreakoutIffIdsAreRanks(ordered);
    forall i | 0 <= i < |ordered|
      ensures ordered[i].raw in r.nameToId && r.nameToId[ordered[i].raw] == i + 1
      ensures Holder(r, ordered[i].raw) == ordered[i]
    {
      HeldAt(r, i);
    }
  }

  lemma HeldAt(r: PortNameResolver, i: nat)
    requires r.Valid() && i < |AfterLearning(r.vendor, r.learned)|
    ensures var n := AfterLearning(r.vendor, r.learned)[i];
            n.raw in r.nameToId && r.nameToId[n.raw] == i + 1 && Holder(r, n.raw) == n
  {
    var n := AfterLearning(r.vendor, r.learned)[i];
    assert i + 1 in r.idToName && r.idToName[i + 1] == n.raw;
  }

  /** On one card whose cages are 1..m, none broken out, every mapped name's ID is its cage number. */
  lemma CageNumbersAreIds(r: PortNameResolver, prefix: string, slot: nat, m: nat, name: string)
    requires r.Valid() && !r.hasBreakout && name in r.nameToId
    requires HoldsCages(AfterLearning(r.vendor, r.learned), prefix, slot, m)
    ensures r.nameToId[name] == Holder(r, name).cage
  {
    LearnedIsSorted(r);
    CageIsPlace(AfterLearning(r.vendor, r.learned), prefix, slot, m);
  }
}
