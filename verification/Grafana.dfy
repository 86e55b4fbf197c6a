/** How a dashboard's variables are put into a query, and into every string of a nested structure. */
module Grafana {
  import opened Common
  import opened Text

  const DEFAULT_INTERVAL_MS: nat := 60000

  type Variables = map<string, string>

  predicate IsNameChar(c: char) {
    IsLetter(c) || IsDigit(c) || c == '_'
  }

  /** One of $name, ${name} and ${name:modifier}. */
  datatype Token = Token(name: string, braced: bool, modifier: Option<string>)

  predicate ValidToken(t: Token) {
    && t.name != "" && (forall i :: 0 <= i < |t.name| ==> IsNameChar(t.name[i]))
    && (t.modifier.Some? ==> t.braced && t.modifier.value != "" && '}' !in t.modifier.value)
  }

  /** The token as written. */
  function Spelled(t: Token): string {
    if t.braced then "${" + (t.name + (if t.modifier.Some? then ":" + t.modifier.value else "") + "}")
    else "$" + t.name
  }

  /** The match of the pattern at the start of the text. */
  function TokenAt(s: string): Option<Token> {
    if |s| < 2 || s[0] != '$' then None
    else if s[1] == '{' then BracedAt(s[2..])
    else
      var n := RunLength(IsNameChar, s[1..]);
      if n == 0 then None else Some(Token(s[1..][..n], false, None))
  }

  /** The pattern after an opening brace. */
  function BracedAt(s: string): Option<Token> {
    var n := RunLength(IsNameChar, s);
    if n == 0 || n == |s| then None
    else if s[n] == '}' then Some(Token(s[..n], true, None))
    else if s[n] != ':' then None
    else
      var m := RunLength(c => c != '}', s[n + 1..]);
      if m == 0 || m == |s| - n - 1 then None
      else Some(Token(s[..n], true, Some(s[n + 1..][..m])))
  }

  predicate IsRegexSpecial(c: char) {
    c in "()[]{}?*+-|^$\\.&~# \t\n\r" || c == '\U{0b}' || c == '\U{0c}'
  }

  /** re.escape */
  function RegexEscape(s: string): string {
    if s == "" then "" else (if IsRegexSpecial(s[0]) then ['\\', s[0]] else [s[0]]) + RegexEscape(s[1..])
  }

  predicate IsIntervalBuiltin(name: string) {
    name == "__interval" || name == "__rate_interval" || name == "__auto" || name == "__auto_interval"
  }

  /** What a token is replaced by: itself when its name is unknown. */
  function Replacement(t: Token, variables: Variables, interval: string): string {
    if IsIntervalBuiltin(t.name) then interval
    else if t.name == "__interval_ms" then Decimal(DEFAULT_INTERVAL_MS)
    else if t.name !in variables then Spelled(t)
    else if t.modifier == Some("regex") && variables[t.name] != ".*" then RegexEscape(variables[t.name])
    else variables[t.name]
  }

  /** interpolate: the leftmost match is replaced, and the search goes on behind it. */
  function Interpolate(s: string, variables: Variables, interval: string): string
    decreases |s|
  {
    if s == "" then ""
    else
      var t := TokenAt(s);
      if t.Some? then
        TokenLeads(s);
        Replacement(t.value, variables, interval) + Interpolate(s[|Spelled(t.value)|..], variables, interval)
      else [s[0]] + Interpolate(s[1..], variables, interval)
  }

  // ---------------------------------------------------------------------------------------------
  // What the pattern matches

  /** No longer bare name would match: the text behind does not go on with a name character. */
  predicate Ends(t: Token, rest: string) {
    t.braced || rest == "" || !IsNameChar(rest[0])
  }

  lemma BracedLeads(s: string)
    ensures BracedAt(s).Some? ==>
              && ValidToken(BracedAt(s).value) && BracedAt(s).value.braced
              && |Spelled(BracedAt(s).value)| <= |s| + 2
              && Spelled(BracedAt(s).value) == "${" + s[..|Spelled(BracedAt(s).value)| - 2]
  {
    var n := RunLength(IsNameChar, s);
    if BracedAt(s).Some? && s[n] == ':' {
      var m := RunLength(c => c != '}', s[n + 1..]);
      assert s[..n + m + 2] == s[..n] + (":" + s[n + 1..][..m]) + "}";
    } else if BracedAt(s).Some? {
      assert s[..n + 1] == s[..n] + "" + "}";
    }
  }

  /** A match is a token the text starts with, and as long a bare name as there is. */
  lemma TokenLeads(s: string)
    ensures var t := TokenAt(s);
            t.Some? ==> ValidToken(t.value) && Spelled(t.value) <= s && |Spelled(t.value)| > 0
                        && Ends(t.value, s[|Spelled(t.value)|..])
  {
    if TokenAt(s).Some? {
      if s[1] == '{' {
        BracedLeads(s[2..]);
        assert s[..2] == "${" && s == s[..2] + s[2..];
      } else {
        var n := RunLength(IsNameChar, s[1..]);
        assert s[..n + 1] == "$" + s[1..][..n];
        assert n < |s[1..]| ==> s[n + 1] == s[1..][n];
      }
    }
  }

  lemma ModifierFound(name: string, modifier: string, rest: string)
    requires name != "" && (forall i :: 0 <= i < |name| ==> IsNameChar(name[i]))
    requires modifier != "" && '}' !in modifier
    ensures BracedAt(name + (":" + (modifier + ("}" + rest)))) == Some(Token(name, true, Some(modifier)))
  {
    var tail := modifier + ("}" + rest);
    var s := name + (":" + tail);
    RunLengthOf(IsNameChar, name, ":" + tail);
    assert s[|name| + 1..] == tail;
    RunLengthOf(c => c != '}', modifier, "}" + rest);
    assert tail[..|modifier|] == modifier && s[..|name|] == name;
  }

  lemma BracedFound(t: Token, rest: string)
    requires ValidToken(t) && t.braced
    ensures BracedAt(Spelled(t)[2..] + rest) == Some(t)
  {
    if t.modifier.Some? {
      ModifierFound(t.name, t.modifier.value, rest);
      assert Spelled(t)[2..] + rest == t.name + (":" + (t.modifier.value + ("}" + rest)));
    } else {
      assert Spelled(t)[2..] + rest == t.name + ("}" + rest);
      RunLengthOf(IsNameChar, t.name, "}" + rest);
    }
  }

  /** Every token is matched where it stands. */
  lemma TokenFound(t: Token, rest: string)
    requires ValidToken(t) && Ends(t, rest)
    ensures TokenAt(Spelled(t) + rest) == Some(t)
  {
    var s := Spelled(t) + rest;
    if t.braced {
      BracedFound(t, rest);
      assert s[2..] == Spelled(t)[2..] + rest;
    } else {
      assert s[1..] == t.name + rest;
      RunLengthOf(IsNameChar, t.name, rest);
      assert s[1] == t.name[0];
    }
  }

  lemma TokenMatches(s: string, t: Token)
    requires ValidToken(t) && Spelled(t) <= s
    ensures TokenAt(s).Some?
  {
    var rest := s[|Spelled(t)|..];
    assert s == Spelled(t) + rest;
    if Ends(t, rest) {
      TokenFound(t, rest);
    } else {
      assert s[1] == t.name[0];
      assert IsNameChar(s[1..][0]);
    }
  }

  /** The pattern matches exactly where the text goes on with some token. */
  lemma MatchesExactlyTokens(s: string)
    ensures TokenAt(s).Some? <==> exists t :: ValidToken(t) && Spelled(t) <= s
  {
    TokenLeads(s);
    if t :| ValidToken(t) && Spelled(t) <= s {
      TokenMatches(s, t);
    }
  }

  // ---------------------------------------------------------------------------------------------
  // Each token is replaced once, and nothing else

  datatype Piece = Plain(c: char) | Variable(token: Token)

  function Source(ps: seq<Piece>): string {
    if ps == [] then ""
    else (if ps[0].Plain? then [ps[0].c] else Spelled(ps[0].token)) + Source(ps[1..])
  }

  /** The text cut into its tokens and the characters between them: a plain `$` starts no token. */
  ghost predicate CutInto(ps: seq<Piece>) {
    ps == [] ||
    (&& CutInto(ps[1..])
     && match ps[0]
        case Plain(c) => forall t :: ValidToken(t) ==> !(Spelled(t) <= Source(ps))
        case Variable(t) => ValidToken(t) && Ends(t, Source(ps[1..])))
  }

  function PieceReplaced(p: Piece, variables: Variables, interval: string): string {
    if p.Plain? then [p.c] else Replacement(p.token, variables, interval)
  }

  function Replaced(ps: seq<Piece>, variables: Variables, interval: string): string {
    if ps == [] then "" else PieceReplaced(ps[0], variables, interval) + Replaced(ps[1..], variables, interval)
  }

  function Pieces(s: string): seq<Piece>
    decreases |s|
  {
    if s == "" then []
    else
      var t := TokenAt(s);
      if t.Some? then
        TokenLeads(s);
        [Variable(t.value)] + Pieces(s[|Spelled(t.value)|..])
      else [Plain(s[0])] + Pieces(s[1..])
  }

  lemma PiecesOf(s: string)
    requires s != ""
    ensures TokenAt(s).None? ==> Pieces(s) == [Plain(s[0])] + Pieces(s[1..])
    ensures TokenAt(s).Some? ==>
              && |Spelled(TokenAt(s).value)| <= |s|
              && Pieces(s) == [Variable(TokenAt(s).value)] + Pieces(s[|Spelled(TokenAt(s).value)|..])
  {
  }

  lemma PlainFirst(c: char, ps: seq<Piece>)
    requires CutInto(ps) && TokenAt([c] + Source(ps)).None?
    ensures CutInto([Plain(c)] + ps) && Source([Plain(c)] + ps) == [c] + Source(ps)
  {
    assert ([Plain(c)] + ps)[1..] == ps;
    MatchesExactlyTokens([c] + Source(ps));
  }

  lemma VariableFirst(t: Token, ps: seq<Piece>)
    requires CutInto(ps) && ValidToken(t) && Ends(t, Source(ps))
    ensures CutInto([Variable(t)] + ps) && Source([Variable(t)] + ps) == Spelled(t) + Source(ps)
  {
  }

  lemma CutAtToken(s: string, t: Token)
    requires TokenAt(s) == Some(t) && |Spelled(t)| <= |s|
    requires CutInto(Pieces(s[|Spelled(t)|..])) && Source(Pieces(s[|Spelled(t)|..])) == s[|Spelled(t)|..]
    ensures CutInto(Pieces(s)) && Source(Pieces(s)) == s
  {
    var rest := s[|Spelled(t)|..];
    TokenLeads(s);
    VariableFirst(t, Pieces(rest));
    assert s == Spelled(t) + rest;
    TokenFirst(s, t);
  }

  lemma TokenFirst(s: string, t: Token)
    requires TokenAt(s) == Some(t) && |Spelled(t)| <= |s|
    ensures Pieces(s) == [Variable(t)] + Pieces(s[|Spelled(t)|..])
  {
    PiecesOf(s);
  }

  lemma CutAtPlain(s: string)
    requires s != "" && TokenAt(s).None?
    requires CutInto(Pieces(s[1..])) && Source(Pieces(s[1..])) == s[1..]
    ensures CutInto(Pieces(s)) && Source(Pieces(s)) == s
  {
    PiecesOf(s);
    assert s == [s[0]] + s[1..];
    PlainFirst(s[0], Pieces(s[1..]));
  }

  /** Every text can be cut so. */
  lemma {:induction false} TextIsCut(s: string)
    ensures CutInto(Pieces(s)) && Source(Pieces(s)) == s
    decreases |s|
  {
    if s == "" {
    } else {
      TokenLeads(s);
      var t := TokenAt(s);
      if t.Some? {
        TextIsCut(s[|Spelled(t.value)|..]);
        CutAtToken(s, t.value);
      } else {
        TextIsCut(s[1..]);
        CutAtPlain(s);
      }
    }
  }

  lemma CutTokenAt(ps: seq<Piece>)
    requires ps != [] && CutInto(ps)
    ensures TokenAt(Source(ps)) == if ps[0].Plain? then None else Some(ps[0].token)
    ensures ps[0].Variable? ==> Source(ps)[|Spelled(ps[0].token)|..] == Source(ps[1..])
    ensures ps[0].Plain? ==> Source(ps)[1..] == Source(ps[1..])
  {
    if ps[0].Plain? {
      MatchesExactlyTokens(Source(ps));
    } else {
      TokenFound(ps[0].token, Source(ps[1..]));
    }
  }

  lemma PiecesFrom(s: string, p: Piece, rest: string)
    requires s != "" && TokenAt(s) == if p.Plain? then None else Some(p.token)
    requires s == (if p.Plain? then [p.c] else Spelled(p.token)) + rest
    ensures Pieces(s) == [p] + Pieces(rest)
  {
  }

  lemma CutStep(ps: seq<Piece>)
    requires ps != [] && CutInto(ps)
    ensures CutInto(ps[1..])
    ensures Pieces(Source(ps)) == [ps[0]] + Pieces(Source(ps[1..]))
  {
    CutTokenAt(ps);
    PiecesFrom(Source(ps), ps[0], Source(ps[1..]));
  }

  lemma {:induction false} StepwiseSame(f: seq<Piece> -> seq<Piece>, cut: seq<Piece> -> bool, ps: seq<Piece>)
    requires f([]) == [] && cut(ps)
    requires forall qs :: qs != [] && cut(qs) ==> cut(qs[1..]) && f(qs) == [qs[0]] + f(qs[1..])
    ensures f(ps) == ps
    decreases |ps|
  {
    if ps == [] {
    } else {
      StepwiseSame(f, cut, ps[1..]);
      assert [ps[0]] + ps[1..] == ps;
    }
  }

  /** And in one way only. */
  lemma OnlyOneCut(ps: seq<Piece>)
    requires CutInto(ps)
    ensures Pieces(Source(ps)) == ps
  {
    var f: seq<Piece> -> seq<Piece> := qs => Pieces(Source(qs));
    var cut: seq<Piece> -> bool := qs => CutInto(qs);
    forall qs | qs != [] && cut(qs) ensures cut(qs[1..]) && f(qs) == [qs[0]] + f(qs[1..]) {
      CutStep(qs);
    }
    StepwiseSame(f, cut, ps);
  }

  /** Each token gives way to its replacement, taken as it is, and every other character stays. */
  lemma {:induction false} TokensAreReplacedOnce(ps: seq<Piece>, variables: Variables, interval: string)
    requires CutInto(ps)
    ensures Interpolate(Source(ps), variables, interval) == Replaced(ps, variables, interval)
    decreases |ps|
  {
    if ps == [] {
    } else {
      CutTokenAt(ps);
      TokensAreReplacedOnce(ps[1..], variables, interval);
    }
  }

  // ---------------------------------------------------------------------------------------------
  // When nothing is left to replace

  lemma {:induction false} ReplacedSettles(ps: seq<Piece>, variables: Variables, interval: string)
    ensures '$' !in Replaced(ps, variables, interval) <==>
            forall p :: p in ps ==> '$' !in PieceReplaced(p, variables, interval)
    decreases |ps|
  {
    if ps == [] {
    } else {
      ReplacedSettles(ps[1..], variables, interval);
      InEither(PieceReplaced(ps[0], variables, interval), Replaced(ps[1..], variables, interval));
      assert forall p :: p in ps <==> p == ps[0] || p in ps[1..];
    }
  }

  lemma InEither(a: string, b: string)
    ensures '$' in a + b <==> '$' in a || '$' in b
  {
  }

  /** A second pass over a text without `$` changes nothing. */
  lemma {:induction false} NothingToReplace(s: string, variables: Variables, interval: string)
    requires '$' !in s
    ensures Interpolate(s, variables, interval) == s
    decreases |s|
  {
    if s == "" {
    } else {
      NothingToReplace(s[1..], variables, interval);
    }
  }

  predicate IsKnown(name: string, variables: Variables) {
    IsIntervalBuiltin(name) || name == "__interval_ms" || name in variables
  }

  lemma {:induction false} EscapeAddsNoDollar(s: string)
    ensures '$' in RegexEscape(s) <==> '$' in s
  {
    if s == "" {
    } else {
      EscapeAddsNoDollar(s[1..]);
    }
  }

  lemma SpelledHasDollar(t: Token)
    ensures '$' in Spelled(t)
  {
  }

  lemma DigitsOnly(n: nat)
    ensures '$' !in Decimal(n)
  {
  }

  /**
   No `$` is left exactly when every `$` of the text starts a token, all their names are known, and
   none stands for a value with `$` in it; a second pass then changes nothing.
   */
  lemma LeavesNoDollar(ps: seq<Piece>, variables: Variables, interval: string)
    requires CutInto(ps)
    ensures var out := Interpolate(Source(ps), variables, interval);
            && ('$' !in out <==> forall p :: p in ps ==> Clean(p, variables, interval))
            && ('$' !in out ==> Interpolate(out, variables, interval) == out)
  {
    TokensAreReplacedOnce(ps, variables, interval);
    ReplacedSettles(ps, variables, interval);
    forall p | p in ps ensures '$' !in PieceReplaced(p, variables, interval) <==> Clean(p, variables, interval) {
      SettlesIffClean(p, variables, interval);
    }
    if '$' !in Interpolate(Source(ps), variables, interval) {
      NothingToReplace(Interpolate(Source(ps), variables, interval), variables, interval);
    }
  }

  /** Not a plain `$`, and not a token whose name is unknown or whose value has a `$`. */
  predicate Clean(p: Piece, variables: Variables, interval: string) {
    match p
    case Plain(c) => c != '$'
    case Variable(t) =>
      && IsKnown(t.name, variables)
      && (IsIntervalBuiltin(t.name) ==> '$' !in interval)
      && (!IsIntervalBuiltin(t.name) && t.name != "__interval_ms" ==> '$' !in variables[t.name])
  }

  lemma SettlesIffClean(p: Piece, variables: Variables, interval: string)
    ensures '$' !in PieceReplaced(p, variables, interval) <==> Clean(p, variables, interval)
  {
    if p.Variable? {
      SpelledHasDollar(p.token);
      DigitsOnly(DEFAULT_INTERVAL_MS);
      if p.token.name in variables {
        EscapeAddsNoDollar(variables[p.token.name]);
      }
    }
  }

  /** The token gives way to a value. */
  predicate IsReplaced(p: Piece, variables: Variables) {
    p.Variable? && IsKnown(p.token.name, variables)
  }

  /** No plain `$`, and none in the value of a token; unknown tokens stay. */
  ghost predicate OnlyTokensHaveDollar(ps: seq<Piece>, variables: Variables, interval: string) {
    forall p :: p in ps && (p.Plain? || IsReplaced(p, variables)) ==> Clean(p, variables, interval)
  }

  /** No value could bring in a `$`. */
  ghost predicate NoValueHasDollar(variables: Variables, interval: string) {
    '$' !in interval && forall name :: name in variables ==> '$' !in variables[name]
  }

  /** The name characters a text starts with. */
  function LeadingName(s: string): string {
    s[..RunLength(IsNameChar, s)]
  }

  /** No unknown bare name becomes a known one with what the replaced text behind it starts with. */
  predicate NoNameGrowsKnown(ps: seq<Piece>, variables: Variables, interval: string) {
    ps == [] ||
    (&& NoNameGrowsKnown(ps[1..], variables, interval)
     && (ps[0].Variable? && !IsReplaced(ps[0], variables) && !ps[0].token.braced ==>
           !IsKnown(ps[0].token.name + LeadingName(Replaced(ps[1..], variables, interval)), variables)))
  }

  function Dollars(s: string): nat {
    if s == "" then 0 else (if s[0] == '$' then 1 else 0) + Dollars(s[1..])
  }

  lemma {:induction false} DollarsAdd(a: string, b: string)
    ensures Dollars(a + b) == Dollars(a) + Dollars(b)
  {
    if a == "" {
      assert a + b == b;
    } else {
      assert (a + b)[1..] == a[1..] + b;
      DollarsAdd(a[1..], b);
    }
  }

  lemma {:induction false} NoDollars(s: string)
    ensures '$' !in s <==> Dollars(s) == 0
  {
    if s == "" {
    } else {
      NoDollars(s[1..]);
    }
  }

  /** A text without `$` goes through as it is. */
  lemma {:induction false} PassesThrough(s: string, rest: string, variables: Variables, interval: string)
    requires '$' !in s
    ensures Interpolate(s + rest, variables, interval) == s + Interpolate(rest, variables, interval)
    decreases |s|
  {
    if s == "" {
      assert s + rest == rest && s + Interpolate(rest, variables, interval) == Interpolate(rest, variables, interval);
    } else {
      assert (s + rest)[1..] == s[1..] + rest;
      PassesThrough(s[1..], rest, variables, interval);
      ConsConcat(s, Interpolate(rest, variables, interval));
    }
  }

  /** A token gives way to its replacement, and the rest is interpolated on its own. */
  lemma TokenGivesWay(t: Token, rest: string, variables: Variables, interval: string)
    requires ValidToken(t) && Ends(t, rest)
    ensures Interpolate(Spelled(t) + rest, variables, interval) ==
            Replacement(t, variables, interval) + Interpolate(rest, variables, interval)
  {
    TokenFound(t, rest);
    assert (Spelled(t) + rest)[|Spelled(t)|..] == rest;
  }

  /** A bare name with what lengthens it. */
  function Grown(t: Token, rest: string): Token {
    Token(t.name + LeadingName(rest), false, None)
  }

  lemma GrownStands(t: Token, rest: string)
    requires ValidToken(t) && !t.braced
    ensures var lead, behind := LeadingName(rest), rest[|LeadingName(rest)|..];
            && rest == lead + behind && '$' !in lead
            && ValidToken(Grown(t, rest)) && Ends(Grown(t, rest), behind)
            && Spelled(Grown(t, rest)) == Spelled(t) + lead
  {
  }

  lemma GrownIsFound(t: Token, rest: string, variables: Variables, interval: string)
    requires ValidToken(t) && !t.braced
    ensures var lead, behind := LeadingName(rest), rest[|LeadingName(rest)|..];
            var last := Interpolate(behind, variables, interval);
            && Interpolate(Spelled(t) + rest, variables, interval) ==
               Replacement(Grown(t, rest), variables, interval) + last
            && Interpolate(rest, variables, interval) == lead + last
  {
    var lead, behind := LeadingName(rest), rest[|LeadingName(rest)|..];
    GrownStands(t, rest);
    ConcatAssociative(Spelled(t), lead, behind);
    TokenGivesWay(Grown(t, rest), behind, variables, interval);
    PassesThrough(lead, behind, variables, interval);
  }

  /** A known name's value brings in no more `$` than the name characters it swallowed. */
  lemma ValueBringsNoDollar(t: Token, lead: string, last: string, variables: Variables, interval: string)
    requires IsKnown(t.name, variables) && NoValueHasDollar(variables, interval) && '$' !in lead
    ensures Dollars(Replacement(t, variables, interval) + last) == Dollars(lead + last)
  {
    SettlesIffClean(Variable(t), variables, interval);
    NoDollars(Replacement(t, variables, interval));
    NoDollars(lead);
    DollarsAdd(Replacement(t, variables, interval), last);
    DollarsAdd(lead, last);
  }

  /** What a second pass makes of an unknown bare name and the text behind it. */
  lemma BareNameGrows(t: Token, rest: string, variables: Variables, interval: string)
    requires ValidToken(t) && !t.braced
    ensures var again := Interpolate(Spelled(t) + rest, variables, interval);
            var restAgain := Interpolate(rest, variables, interval);
            && (!IsKnown(t.name + LeadingName(rest), variables) ==> again == Spelled(t) + restAgain)
            && (IsKnown(t.name + LeadingName(rest), variables) && NoValueHasDollar(variables, interval) ==>
                  Dollars(again) == Dollars(restAgain))
  {
    var lead := LeadingName(rest);
    var last := Interpolate(rest[|lead|..], variables, interval);
    GrownStands(t, rest);
    GrownIsFound(t, rest, variables, interval);
    if IsKnown(Grown(t, rest).name, variables) {
      if NoValueHasDollar(variables, interval) {
        ValueBringsNoDollar(Grown(t, rest), lead, last, variables, interval);
      }
    } else {
      ConcatAssociative(Spelled(t), lead, last);
    }
  }

  /** How a second pass over what these pieces became compares with it. */
  ghost predicate PassedAgain(ps: seq<Piece>, out: string, again: string, variables: Variables, interval: string) {
    && (NoNameGrowsKnown(ps, variables, interval) ==> again == out)
    && (NoValueHasDollar(variables, interval) ==> Dollars(again) <= Dollars(out))
    && (NoValueHasDollar(variables, interval) && !NoNameGrowsKnown(ps, variables, interval) ==>
          Dollars(again) < Dollars(out))
  }

  lemma KeptPieceAgain(ps: seq<Piece>, piece: string, rest: string, restAgain: string, variables: Variables,
                       interval: string)
    requires ps != [] && PassedAgain(ps[1..], rest, restAgain, variables, interval)
    requires NoNameGrowsKnown(ps, variables, interval) == NoNameGrowsKnown(ps[1..], variables, interval)
    ensures PassedAgain(ps, piece + rest, piece + restAgain, variables, interval)
  {
    DollarsAdd(piece, rest);
    DollarsAdd(piece, restAgain);
  }

  lemma BareNameAgain(ps: seq<Piece>, restAgain: string, variables: Variables, interval: string)
    requires ps != [] && ps[0].Variable? && ValidToken(ps[0].token)
    requires !IsReplaced(ps[0], variables) && !ps[0].token.braced
    requires var rest := Replaced(ps[1..], variables, interval);
             && restAgain == Interpolate(rest, variables, interval)
             && PassedAgain(ps[1..], rest, restAgain, variables, interval)
    ensures var out := Spelled(ps[0].token) + Replaced(ps[1..], variables, interval);
            PassedAgain(ps, out, Interpolate(out, variables, interval), variables, interval)
  {
    var t, rest := ps[0].token, Replaced(ps[1..], variables, interval);
    BareNameGrows(t, rest, variables, interval);
    DollarsAdd(Spelled(t), rest);
    DollarsAdd(Spelled(t), restAgain);
    SpelledHasDollar(t);
    NoDollars(Spelled(t));
  }

  lemma {:induction false} SecondPass(ps: seq<Piece>, variables: Variables, interval: string)
    requires CutInto(ps) && OnlyTokensHaveDollar(ps, variables, interval)
    ensures var out := Replaced(ps, variables, interval);
            PassedAgain(ps, out, Interpolate(out, variables, interval), variables, interval)
    decreases |ps|
  {
    if ps == [] {
    } else {
      var p, rest := ps[0], Replaced(ps[1..], variables, interval);
      SecondPass(ps[1..], variables, interval);
      if p.Plain? || IsReplaced(p, variables) {
        SettlesIffClean(p, variables, interval);
        PassesThrough(PieceReplaced(p, variables, interval), rest, variables, interval);
        KeptPieceAgain(ps, PieceReplaced(p, variables, interval), rest, Interpolate(rest, variables, interval),
                       variables, interval);
      } else if p.token.braced {
        TokenGivesWay(p.token, rest, variables, interval);
        KeptPieceAgain(ps, Spelled(p.token), rest, Interpolate(rest, variables, interval), variables, interval);
      } else {
        BareNameAgain(ps, Interpolate(rest, variables, interval), variables, interval);
      }
    }
  }

  /**
   A second pass over a text whose only `$` start tokens with values free of it changes nothing where
   no unknown bare name grows into a known one with what follows it; and, while no value at all has a
   `$`, only there.
   */
  lemma SecondPassChangesNothing(ps: seq<Piece>, variables: Variables, interval: string)
    requires CutInto(ps) && OnlyTokensHaveDollar(ps, variables, interval)
    ensures var out := Interpolate(Source(ps), variables, interval);
            && (NoNameGrowsKnown(ps, variables, interval) ==> Interpolate(out, variables, interval) == out)
            && (NoValueHasDollar(variables, interval) ==>
                  (Interpolate(out, variables, interval) == out <==> NoNameGrowsKnown(ps, variables, interval)))
  {
    TokensAreReplacedOnce(ps, variables, interval);
    SecondPass(ps, variables, interval);
  }

  lemma OneToken(t: Token, variables: Variables, interval: string)
    requires ValidToken(t)
    ensures Interpolate(Spelled(t), variables, interval) == Replacement(t, variables, interval)
  {
    TokenFound(t, "");
    assert Spelled(t) + "" == Spelled(t) && Spelled(t)[|Spelled(t)|..] == "";
    assert Interpolate("", variables, interval) == "";
  }

  lemma OneBareToken(name: string, variables: Variables, interval: string)
    requires name != "" && (forall i :: 0 <= i < |name| ==> IsNameChar(name[i])) && name in variables
    requires !IsIntervalBuiltin(name) && name != "__interval_ms"
    ensures Interpolate("$" + name, variables, interval) == variables[name]
  {
    var t := Token(name, false, None);
    OneToken(t, variables, interval);
  }

  /** A `$` before a token can make a new token with its value, which only a second pass replaces. */
  lemma SecondPassCanReplace()
    ensures var variables := map["a" := "b", "b" := "c"];
            && Interpolate("$$a", variables, "1m") == "$b"
            && Interpolate("$b", variables, "1m") == "c"
  {
    var variables := map["a" := "b", "b" := "c"];
    OneBareToken("a", variables, "1m");
    OneBareToken("b", variables, "1m");
    assert "$$a"[1..] == "$a";
    assert Interpolate("$$a", variables, "1m") == "$" + Interpolate("$a", variables, "1m");
  }

  /** The characters with a meaning of their own in a regular expression. */
  predicate IsRegexSyntax(c: char) { c in ".^$*+?{}[]\\|()" }

  /** What a regular expression of single characters stands for; a letter or digit has no escape. */
  function RegexLiteral(s: string): Option<string> {
    if s == "" then Some("")
    else if s[0] == '\\' then
      if |s| == 1 || IsLetter(s[1]) || IsDigit(s[1]) then None else Prepended(s[1], RegexLiteral(s[2..]))
    else if IsRegexSyntax(s[0]) then None
    else Prepended(s[0], RegexLiteral(s[1..]))
  }

  function Prepended(c: char, s: Option<string>): Option<string> {
    if s.Some? then Some([c] + s.value) else None
  }

  /** An escaped value reads back: as a regular expression it stands for the value's own characters. */
  lemma {:induction false} EscapedStandsForItself(s: string)
    ensures RegexLiteral(RegexEscape(s)) == Some(s)
  {
    if s == "" {
    } else {
      EscapedStandsForItself(s[1..]);
      SyntaxIsSpecial(s[0]);
      var e := RegexEscape(s[1..]);
      if IsRegexSpecial(s[0]) {
        assert (['\\', s[0]] + e)[2..] == e;
      } else {
        assert ([s[0]] + e)[1..] == e;
      }
      assert s == [s[0]] + s[1..];
    }
  }

  lemma SyntaxIsSpecial(c: char)
    ensures IsRegexSyntax(c) ==> IsRegexSpecial(c)
    ensures IsRegexSpecial(c) ==> !IsLetter(c) && !IsDigit(c)
  {
  }

  /**
   What a token becomes: an interval, the built-in number of milliseconds, itself when its name is
   unknown, and else the variable's value, which `:regex` makes an expression for just that text
   unless it already matches everything.
   */
  lemma TokenMeans(t: Token, variables: Variables, interval: string)
    requires ValidToken(t)
    ensures var r := Interpolate(Spelled(t), variables, interval);
            if t.name in ["__interval", "__rate_interval", "__auto", "__auto_interval"] then r == interval
            else if t.name == "__interval_ms" then r == "60000"
            else if t.name !in variables then r == Spelled(t)
            else if t.modifier != Some("regex") || variables[t.name] == ".*" then r == variables[t.name]
            else RegexLiteral(r) == Some(variables[t.name])
  {
    OneToken(t, variables, interval);
    SixtyThousand();
    if t.name in variables {
      EscapedStandsForItself(variables[t.name]);
    }
  }

  lemma SixtyThousand()
    ensures Decimal(DEFAULT_INTERVAL_MS) == "60000"
  {
    assert Decimal(6) == "6" && Decimal(60) == "60" && Decimal(600) == "600" && Decimal(6000) == "6000";
  }

  // ---------------------------------------------------------------------------------------------
  // Nested structures

  datatype Value =
    | Text(text: string)
    | Items(items: seq<Value>)
    | Mapping(keys: seq<string>, values: seq<Value>)
    | Scalar(id: int)

  /** interpolate_deep */
  function InterpolateDeep(v: Value, variables: Variables, interval: string): Value {
    match v
    case Text(s) => Value.Text(Interpolate(s, variables, interval))
    case Items(vs) => Items(InterpolateAll(vs, variables, interval))
    case Mapping(keys, vs) => Mapping(keys, InterpolateAll(vs, variables, interval))
    case Scalar(_) => v
  }

  function InterpolateAll(vs: seq<Value>, variables: Variables, interval: string): seq<Value> {
    if vs == [] then []
    else [InterpolateDeep(vs[0], variables, interval)] + InterpolateAll(vs[1..], variables, interval)
  }

  lemma {:induction false} InterpolateAllAt(vs: seq<Value>, variables: Variables, interval: string)
    ensures var all := InterpolateAll(vs, variables, interval);
            && |all| == |vs|
            && forall i :: 0 <= i < |vs| ==> all[i] == InterpolateDeep(vs[i], variables, interval)
  {
    if vs == [] {
    } else {
      InterpolateAllAt(vs[1..], variables, interval);
    }
  }

  /** The value a path of places leads to. */
  function At(v: Value, path: seq<nat>): Option<Value> {
    if path == [] then Some(v)
    else
      match v
      case Items(vs) => if path[0] < |vs| then At(vs[path[0]], path[1..]) else None
      case Mapping(_, vs) => if path[0] < |vs| then At(vs[path[0]], path[1..]) else None
      case _ => None
  }

  /** What a value is apart from the strings and values in it. */
  predicate SameNode(a: Value, b: Value) {
    match a
    case Text(_) => b.Text?
    case Items(vs) => b.Items? && |b.items| == |vs|
    case Mapping(keys, vs) => b.Mapping? && b.keys == keys && |b.values| == |vs|
    case Scalar(_) => b == a
  }

  /** The structure keeps its shape and keys; only its strings are interpolated, each where it stands. */
  lemma {:induction false} ShapeIsKept(v: Value, path: seq<nat>, variables: Variables, interval: string)
    ensures var w := InterpolateDeep(v, variables, interval);
            && (At(v, path).Some? <==> At(w, path).Some?)
            && (At(v, path).Some? ==>
                  && SameNode(At(v, path).value, At(w, path).value)
                  && (At(v, path).value.Text? ==>
                        At(w, path).value == Value.Text(Interpolate(At(v, path).value.text, variables, interval))))
    decreases |path|
  {
    match v
    case Items(vs) =>
      InterpolateAllAt(vs, variables, interval);
      if path != [] && path[0] < |vs| {
        ShapeIsKept(vs[path[0]], path[1..], variables, interval);
      }
    case Mapping(_, vs) =>
      InterpolateAllAt(vs, variables, interval);
      if path != [] && path[0] < |vs| {
        ShapeIsKept(vs[path[0]], path[1..], variables, interval);
      }
    case _ =>
  }
}
