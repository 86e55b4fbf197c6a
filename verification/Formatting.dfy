/** A report's tables as Markdown, and reading them back. */
module Formatting {
  import opened Common

  datatype Table = Table(headers: seq<string>, rows: seq<seq<string>>)

  predicate Rectangular(t: Table) {
    forall row :: row in t.rows ==> |row| == |t.headers|
  }

  /** A pipe in a cell is written with a backslash before it. */
  function MdEscape(text: string): string {
    if text == "" then "" else (if text[0] == '|' then "\\|" else [text[0]]) + MdEscape(text[1..])
  }

  function Spaces(n: nat): string {
    seq(n, i => ' ')
  }

  /** text.ljust(width) */
  function Ljust(text: string, width: nat): (r: string)
    ensures |text| <= width ==> |r| == width
  {
    if |text| < width then text + Spaces(width - |text|) else text
  }

  /** The longest escaped cell of a column. */
  function Width(cells: seq<seq<string>>, column: nat): (w: nat)
    requires forall row :: row in cells ==> column < |row|
    ensures forall row :: row in cells ==> |MdEscape(row[column])| <= w
    ensures cells != [] ==> exists row :: row in cells && |MdEscape(row[column])| == w
  {
    if cells == [] then 0
    else
      var rest := Width(cells[1..], column);
      var first := |MdEscape(cells[0][column])|;
      assert cells[0] in cells;
      if first >= rest || |cells| == 1 then first
      else
        assert exists row :: row in cells[1..] && |MdEscape(row[column])| == rest;
        rest
  }

  function Cells(t: Table): seq<seq<string>> {
    [t.headers] + t.rows
  }

  function Widths(t: Table): (ws: seq<nat>)
    requires Rectangular(t)
    ensures |ws| == |t.headers|
  {
    seq(|t.headers|, i requires 0 <= i < |t.headers| => Width(Cells(t), i))
  }

  function Join(separator: string, parts: seq<string>): string {
    if parts == [] then ""
    else if |parts| == 1 then parts[0]
    else parts[0] + separator + Join(separator, parts[1..])
  }

  /** The pieces of a line between its bars, each with its padding. */
  function Padded(row: seq<string>, widths: seq<nat>): (pieces: seq<string>)
    requires |row| == |widths|
    ensures |pieces| == |row|
  {
    seq(|row|, i requires 0 <= i < |row| => Ljust(MdEscape(row[i]), widths[i]))
  }

  function Dashes(n: nat): string {
    seq(n, i => '-')
  }

  function Rule(widths: seq<nat>): (pieces: seq<string>)
    ensures |pieces| == |widths|
  {
    seq(|widths|, i requires 0 <= i < |widths| => ":" + if widths[i] > 1 then Dashes(widths[i] - 1) else "")
  }

  function LineOf(pieces: seq<string>): string {
    "| " + Join(" | ", pieces) + " |"
  }

  function RowLines(rows: seq<seq<string>>, widths: seq<nat>): (lines: seq<string>)
    requires forall row :: row in rows ==> |row| == |widths|
    ensures |lines| == |rows|
    ensures forall i :: 0 <= i < |rows| ==> lines[i] == LineOf(Padded(rows[i], widths))
  {
    seq(|rows|, i requires 0 <= i < |rows| => LineOf(Padded(rows[i], widths)))
  }

  function MarkdownLines(t: Table): seq<string>
    requires Rectangular(t)
  {
    [LineOf(Padded(t.headers, Widths(t))), LineOf(Rule(Widths(t)))] + RowLines(t.rows, Widths(t))
  }

  /** render_table_markdown, which raises for a table with rows that is not rectangular. */
  function RenderMarkdown(t: Table): string
    requires t.rows != [] ==> Rectangular(t)
  {
    if t.rows == [] then "_(no rows)_" else Join("\n", MarkdownLines(t))
  }

  // ---------------------------------------------------------------------------------------------
  // Lines of one length

  function TotalLength(pieces: seq<string>): nat {
    if pieces == [] then 0 else |pieces[0]| + 3 + TotalLength(pieces[1..])
  }

  lemma {:induction false} LineLength(pieces: seq<string>)
    requires pieces != []
    ensures |LineOf(pieces)| == 1 + TotalLength(pieces)
    decreases |pieces|
  {
    if |pieces| > 1 {
      LineLength(pieces[1..]);
    } else {
      assert pieces[1..] == [];
    }
  }

  lemma {:induction false} SameTotal(a: seq<string>, b: seq<string>)
    requires |a| == |b| && forall i :: 0 <= i < |a| ==> |a[i]| == |b[i]|
    ensures TotalLength(a) == TotalLength(b)
  {
    if a == [] {
    } else {
      SameTotal(a[1..], b[1..]);
    }
  }

  /** A rule is as long as the rows where no column is empty, and longer otherwise. */
  lemma {:induction false} RuleTotal(a: seq<string>, widths: seq<nat>)
    requires |a| == |widths| && forall i :: 0 <= i < |a| ==> |a[i]| == widths[i]
    ensures TotalLength(Rule(widths)) >= TotalLength(a)
    ensures TotalLength(Rule(widths)) == TotalLength(a) <==> forall i :: 0 <= i < |widths| ==> widths[i] > 0
  {
    if a == [] {
    } else {
      assert Rule(widths)[1..] == Rule(widths[1..]);
      RuleTotal(a[1..], widths[1..]);
      assert forall i :: 1 <= i < |widths| ==> widths[i] == widths[1..][i - 1];
    }
  }

  lemma PaddedFits(t: Table, row: seq<string>)
    requires Rectangular(t) && row in Cells(t)
    ensures |row| == |t.headers|
    ensures forall i :: 0 <= i < |row| ==> |Padded(row, Widths(t))[i]| == Widths(t)[i]
  {
  }

  /** A column with nothing in it, not even a header. */
  ghost predicate EmptyColumn(t: Table, column: nat)
    requires Rectangular(t) && column < |t.headers|
  {
    forall row :: row in Cells(t) ==> row[column] == ""
  }

  lemma WidthIsZero(t: Table, column: nat)
    requires Rectangular(t) && column < |t.headers|
    ensures Widths(t)[column] == 0 <==> EmptyColumn(t, column)
  {
  }

  /** Every line but the rule is as long as the header. */
  lemma LengthAt(t: Table, k: nat)
    requires Rectangular(t) && t.headers != [] && k < |t.rows|
    ensures |LineOf(Padded(t.rows[k], Widths(t)))| == |LineOf(Padded(t.headers, Widths(t)))|
  {
    var row, ws := t.rows[k], Widths(t);
    assert row in t.rows;
    PaddedFits(t, row);
    PaddedFits(t, t.headers);
    LineLength(Padded(row, ws));
    LineLength(Padded(t.headers, ws));
    SameTotal(Padded(row, ws), Padded(t.headers, ws));
  }

  lemma RuleLength(t: Table)
    requires Rectangular(t) && t.headers != []
    ensures |LineOf(Rule(Widths(t)))| == |LineOf(Padded(t.headers, Widths(t)))| <==>
            forall i :: 0 <= i < |t.headers| ==> !EmptyColumn(t, i)
  {
    var ws := Widths(t);
    PaddedFits(t, t.headers);
    LineLength(Padded(t.headers, ws));
    LineLength(Rule(ws));
    RuleTotal(Padded(t.headers, ws), ws);
    forall i | 0 <= i < |t.headers| ensures ws[i] > 0 <==> !EmptyColumn(t, i) {
      WidthIsZero(t, i);
    }
  }

  predicate OneLength(lines: seq<string>) {
    forall i :: 0 <= i < |lines| ==> |lines[i]| == |lines[0]|
  }

  lemma OneLengthIff(head: string, rule: string, rows: seq<string>)
    requires forall k :: 0 <= k < |rows| ==> |rows[k]| == |head|
    ensures OneLength([head, rule] + rows) <==> |rule| == |head|
  {
    var lines := [head, rule] + rows;
    assert lines[0] == head && lines[1] == rule;
    assert forall i :: 2 <= i < |lines| ==> lines[i] == rows[i - 2];
  }

  /** All lines are equally long exactly when no column is entirely empty. */
  lemma LinesAreEqual(t: Table)
    requires Rectangular(t) && t.headers != []
    ensures OneLength(MarkdownLines(t)) <==> forall i :: 0 <= i < |t.headers| ==> !EmptyColumn(t, i)
  {
    RuleLength(t);
    forall k | 0 <= k < |t.rows| ensures |RowLines(t.rows, Widths(t))[k]| == |LineOf(Padded(t.headers, Widths(t)))| {
      LengthAt(t, k);
    }
    OneLengthIff(LineOf(Padded(t.headers, Widths(t))), LineOf(Rule(Widths(t))), RowLines(t.rows, Widths(t)));
  }

  // ---------------------------------------------------------------------------------------------
  // Reading a table back

  /** The text split at each bar that no backslash stands before; prev is the character before the text. */
  function SplitAtBars(prev: char, s: string): (parts: seq<string>)
    ensures parts != []
    decreases |s|
  {
    if s == "" then [""]
    else
      var rest := SplitAtBars(s[0], s[1..]);
      if s[0] == '|' && prev != '\\' then [""] + rest else [[s[0]] + rest[0]] + rest[1..]
  }

  function Trim(s: string): string {
    if s != "" && s[0] == ' ' then Trim(s[1..])
    else if s != "" && Last(s) == ' ' then Trim(s[..|s| - 1])
    else s
  }

  /** The text with one backslash before each bar dropped. */
  function MdUnescape(s: string): string {
    if s == "" then ""
    else if |s| > 1 && s[0] == '\\' && s[1] == '|' then "|" + MdUnescape(s[2..])
    else [s[0]] + MdUnescape(s[1..])
  }

  function ReadCells(parts: seq<string>): seq<string> {
    seq(|parts|, i requires 0 <= i < |parts| => MdUnescape(Trim(parts[i])))
  }

  /** The cells of a line: what is between its first and last bar. */
  function ReadLine(line: string): seq<string> {
    var parts := SplitAtBars(' ', line);
    if |parts| < 2 then [] else ReadCells(parts[1..|parts| - 1])
  }

  function SplitLines(s: string): (lines: seq<string>)
    ensures lines != []
  {
    if s == "" then [""]
    else if s[0] == '\n' then [""] + SplitLines(s[1..])
    else var rest := SplitLines(s[1..]); [[s[0]] + rest[0]] + rest[1..]
  }

  function ReadLines(lines: seq<string>): seq<seq<string>> {
    seq(|lines|, i requires 0 <= i < |lines| => ReadLine(lines[i]))
  }

  /** The header and the rows of a Markdown table, the rule under the header left out. */
  function ReadTable(s: string): seq<seq<string>> {
    var lines := SplitLines(s);
    if |lines| < 2 then [] else ReadLines([lines[0]] + lines[2..])
  }

  lemma {:induction false} UnescapeEscape(s: string)
    ensures MdUnescape(MdEscape(s)) == s
  {
    if s == "" {
    } else {
      UnescapeEscape(s[1..]);
      var e := MdEscape(s[1..]);
      assert s == [s[0]] + s[1..];
      if s[0] == '|' {
        assert ("\\|" + e)[2..] == e;
      } else {
        assert ([s[0]] + e)[1..] == e;
        EscapeStart(s[1..]);
      }
    }
  }

  /** An escaped text never starts with a bar, and ends as the text does. */
  lemma {:induction false} EscapeStart(s: string)
    ensures s != "" ==> MdEscape(s) != "" && MdEscape(s)[0] != '|' && Last(MdEscape(s)) == Last(s)
    ensures s != "" ==> MdEscape(s)[0] == if s[0] == '|' then '\\' else s[0]
  {
    if |s| > 1 {
      EscapeStart(s[1..]);
    } else if |s| == 1 {
      assert s[1..] == "";
    }
  }

  predicate UnbrokenAt(prev: char, s: string, i: nat)
    requires i < |s|
  {
    s[i] == '|' ==> (if i == 0 then prev else s[i - 1]) == '\\'
  }

  /** No bar splits this text when prev is the character before it: each has a backslash before it. */
  ghost predicate Unbroken(prev: char, s: string) {
    forall i: nat :: i < |s| ==> UnbrokenAt(prev, s, i)
  }

  lemma {:induction false} SplitOff(prev: char, a: string, b: string)
    requires Unbroken(prev, a) && (if a == "" then prev else Last(a)) != '\\'
    ensures SplitAtBars(prev, a + "|" + b) == [a] + SplitAtBars('|', b)
    decreases |a|
  {
    var s := a + "|" + b;
    if a == "" {
      assert s[1..] == b;
    } else {
      assert s[1..] == a[1..] + "|" + b;
      assert UnbrokenAt(prev, a, 0);
      forall i: nat | i < |a[1..]| ensures UnbrokenAt(a[0], a[1..], i) {
        assert UnbrokenAt(prev, a, i + 1);
      }
      SplitOff(a[0], a[1..], b);
      var rest := SplitAtBars(a[0], s[1..]);
      assert s[0] == a[0] && (a[0] == '|' ==> prev == '\\');
      assert rest[0] == a[1..] && rest[1..] == SplitAtBars('|', b);
      assert a == [a[0]] + a[1..];
    }
  }

  lemma {:induction false} EscapedIsUnbroken(prev: char, s: string)
    ensures Unbroken(prev, MdEscape(s))
    decreases |s|
  {
    if s == "" {
    } else {
      var e, all := MdEscape(s[1..]), MdEscape(s);
      EscapedIsUnbroken(s[0], s[1..]);
      EscapeStart(s[1..]);
      forall i: nat | i < |all| ensures UnbrokenAt(prev, all, i) {
        var start := |all| - |e|;
        if i >= start {
          assert UnbrokenAt(s[0], e, i - start) && all[i] == e[i - start];
        }
      }
    }
  }

  /** A cell as it stands between two bars. */
  function Between(piece: string): string {
    " " + piece + " "
  }

  function Closed(pieces: seq<string>): string {
    if pieces == [] then "" else Between(pieces[0]) + "|" + Closed(pieces[1..])
  }

  lemma {:induction false} LineIsClosed(pieces: seq<string>)
    requires pieces != []
    ensures LineOf(pieces) == "|" + Closed(pieces)
    decreases |pieces|
  {
    if |pieces| == 1 {
      assert Closed(pieces[1..]) == "";
      assert "| " + pieces[0] + " |" == "|" + (" " + pieces[0] + " " + "|" + "");
    } else {
      LineIsClosed(pieces[1..]);
      var rest := Join(" | ", pieces[1..]);
      assert "| " + (pieces[0] + " | " + rest) + " |" == "|" + (Between(pieces[0]) + "|" + (" " + rest + " |"));
      assert "| " + rest + " |" == "|" + (" " + rest + " |");
      assert ("| " + rest + " |")[1..] == ("|" + Closed(pieces[1..]))[1..];
    }
  }

  ghost predicate NeverBroken(pieces: seq<string>) {
    forall i :: 0 <= i < |pieces| ==> Unbroken('|', Between(pieces[i]))
  }

  function Betweens(pieces: seq<string>): seq<string> {
    if pieces == [] then [] else [Between(pieces[0])] + Betweens(pieces[1..])
  }

  lemma {:induction false} SplitClosed(pieces: seq<string>)
    requires NeverBroken(pieces)
    ensures SplitAtBars('|', Closed(pieces)) == Betweens(pieces) + [""]
    decreases |pieces|
  {
    if pieces == [] {
    } else {
      assert Unbroken('|', Between(pieces[0]));
      forall i | 0 <= i < |pieces[1..]| ensures Unbroken('|', Between(pieces[1..][i])) {
        assert pieces[1..][i] == pieces[i + 1];
      }
      SplitClosed(pieces[1..]);
      SplitOff('|', Between(pieces[0]), Closed(pieces[1..]));
    }
  }

  lemma {:induction false} BetweensAt(pieces: seq<string>)
    ensures |Betweens(pieces)| == |pieces|
    ensures forall i :: 0 <= i < |pieces| ==> Betweens(pieces)[i] == Between(pieces[i])
  {
    if pieces == [] {
    } else {
      BetweensAt(pieces[1..]);
    }
  }

  lemma LineSplits(pieces: seq<string>)
    requires pieces != [] && NeverBroken(pieces)
    ensures SplitAtBars(' ', LineOf(pieces)) == [""] + Betweens(pieces) + [""]
  {
    LineIsClosed(pieces);
    SplitClosed(pieces);
    assert "|" + Closed(pieces) == "" + "|" + Closed(pieces);
    SplitOff(' ', "", Closed(pieces));
  }

  /** A cell that survives trimming. */
  predicate Tidy(cell: string) {
    '\n' !in cell && (cell != "" ==> cell[0] != ' ' && Last(cell) != ' ')
  }

  lemma {:induction false} TrimSpaces(n: nat)
    ensures Trim(Spaces(n)) == ""
  {
    if n == 0 {
    } else {
      assert Spaces(n)[1..] == Spaces(n - 1);
      TrimSpaces(n - 1);
    }
  }

  lemma {:induction false} TrimRight(s: string, n: nat)
    requires s != "" && s[0] != ' ' && Last(s) != ' '
    ensures Trim(s + Spaces(n)) == s
    decreases n
  {
    if n == 0 {
      assert s + Spaces(0) == s;
    } else {
      var t := s + Spaces(n);
      assert t[..|t| - 1] == s + Spaces(n - 1);
      TrimRight(s, n - 1);
    }
  }

  lemma PaddedIsTrimmed(cell: string, width: nat)
    requires Tidy(cell)
    ensures Trim(Between(Ljust(MdEscape(cell), width))) == MdEscape(cell)
  {
    var e := MdEscape(cell);
    var n := if |e| < width then width - |e| else 0;
    var padded := Between(Ljust(e, width));
    assert padded == " " + e + Spaces(n + 1);
    if cell == "" {
      assert padded == Spaces(n + 2);
      TrimSpaces(n + 2);
    } else {
      EscapeStart(cell);
      assert padded[1..] == e + Spaces(n + 1);
      TrimRight(e, n + 1);
    }
  }

  lemma PaddedIsUnbroken(cell: string, width: nat)
    ensures Unbroken('|', Between(Ljust(MdEscape(cell), width)))
  {
    var e := MdEscape(cell);
    EscapedIsUnbroken(' ', cell);
    var s := Between(Ljust(e, width));
    forall i: nat | i < |s| ensures UnbrokenAt('|', s, i) {
      if 1 <= i <= |e| {
        assert UnbrokenAt(' ', e, i - 1) && s[i] == e[i - 1];
        assert i > 1 ==> s[i - 1] == e[i - 2];
      }
    }
  }

  /** A row's line reads back as the row. */
  lemma RowReadsBack(row: seq<string>, widths: seq<nat>)
    requires row != [] && |row| == |widths|
    requires forall i :: 0 <= i < |row| ==> Tidy(row[i])
    ensures ReadLine(LineOf(Padded(row, widths))) == row
  {
    var pieces := Padded(row, widths);
    forall i | 0 <= i < |row| ensures Unbroken('|', Between(pieces[i])) {
      PaddedIsUnbroken(row[i], widths[i]);
    }
    LineSplits(pieces);
    BetweensAt(pieces);
    var parts := [""] + Betweens(pieces) + [""];
    assert parts[1..|parts| - 1] == Betweens(pieces);
    forall i | 0 <= i < |row| ensures MdUnescape(Trim(Betweens(pieces)[i])) == row[i] {
      PaddedIsTrimmed(row[i], widths[i]);
      UnescapeEscape(row[i]);
    }
  }

  /** A left-aligned column's cell of a delimiter row: a colon and at least one dash. */
  ghost predicate IsLeftDelimiter(cell: string) {
    |cell| >= 2 && cell[0] == ':' && forall i :: 1 <= i < |cell| ==> cell[i] == '-'
  }

  lemma {:induction false} UnescapeNothing(s: string)
    requires '\\' !in s
    ensures MdUnescape(s) == s
  {
    if s == "" {
    } else {
      UnescapeNothing(s[1..]);
      assert s == [s[0]] + s[1..];
    }
  }

  lemma RulePiece(width: nat, piece: string)
    requires piece == ":" + if width > 1 then Dashes(width - 1) else ""
    ensures Unbroken('|', Between(piece)) && MdUnescape(Trim(Between(piece))) == piece
    ensures IsLeftDelimiter(piece) <==> width > 1
  {
    var s := Between(piece);
    assert forall c :: c in piece ==> c == ':' || c == '-';
    forall i: nat | i < |s| ensures UnbrokenAt('|', s, i) {
      assert s[i] == ' ' || s[i] in piece;
    }
    assert Last(piece) in piece && piece[0] == ':';
    assert s[1..] == piece + Spaces(1);
    TrimRight(piece, 1);
    UnescapeNothing(piece);
  }

  /**
   The rule reads back as one cell per column, and marks a column as left-aligned exactly when some
   escaped cell of the column, its header included, has two characters: a delimiter needs a dash.
   */
  lemma RuleReadsBack(t: Table)
    requires Rectangular(t) && t.headers != []
    ensures ReadLine(LineOf(Rule(Widths(t)))) == Rule(Widths(t))
    ensures forall i :: 0 <= i < |t.headers| ==>
              (IsLeftDelimiter(Rule(Widths(t))[i]) <==> exists row :: row in Cells(t) && |MdEscape(row[i])| > 1)
  {
    var ws := Widths(t);
    var pieces := Rule(ws);
    forall i | 0 <= i < |ws|
      ensures Unbroken('|', Between(pieces[i])) && MdUnescape(Trim(Between(pieces[i]))) == pieces[i]
      ensures IsLeftDelimiter(pieces[i]) <==> ws[i] > 1
      ensures ws[i] > 1 <==> exists row :: row in Cells(t) && |MdEscape(row[i])| > 1
    {
      RulePiece(ws[i], pieces[i]);
      assert exists row :: row in Cells(t) && |MdEscape(row[i])| == Width(Cells(t), i);
    }
    LineSplits(pieces);
    BetweensAt(pieces);
    var parts := [""] + Betweens(pieces) + [""];
    assert parts[1..|parts| - 1] == Betweens(pieces);
  }

  ghost predicate OneLineEach(lines: seq<string>) {
    forall i :: 0 <= i < |lines| ==> '\n' !in lines[i]
  }

  lemma {:induction false} FirstLine(line: string, rest: string)
    requires '\n' !in line
    ensures SplitLines(line + "\n" + rest) == [line] + SplitLines(rest)
    ensures SplitLines(line) == [line]
    decreases |line|
  {
    var s := line + "\n" + rest;
    if line == "" {
      assert s[1..] == rest;
    } else {
      assert s[1..] == line[1..] + "\n" + rest;
      FirstLine(line[1..], rest);
      assert line == [line[0]] + line[1..];
    }
  }

  lemma {:induction false} LinesSplit(lines: seq<string>)
    requires lines != [] && OneLineEach(lines)
    ensures SplitLines(Join("\n", lines)) == lines
    decreases |lines|
  {
    if |lines| == 1 {
      FirstLine(lines[0], "");
    } else {
      LinesSplit(lines[1..]);
      FirstLine(lines[0], Join("\n", lines[1..]));
    }
  }

  lemma {:induction false} EscapeKeepsLine(s: string)
    ensures '\n' in MdEscape(s) <==> '\n' in s
  {
    if s == "" {
    } else {
      EscapeKeepsLine(s[1..]);
    }
  }

  lemma {:induction false} JoinOnOneLine(separator: string, parts: seq<string>)
    requires '\n' !in separator && OneLineEach(parts)
    ensures '\n' !in Join(separator, parts)
    decreases |parts|
  {
    if |parts| <= 1 {
    } else {
      JoinOnOneLine(separator, parts[1..]);
    }
  }

  lemma RowOnOneLine(row: seq<string>, widths: seq<nat>)
    requires |row| == |widths| && forall i :: 0 <= i < |row| ==> Tidy(row[i])
    ensures '\n' !in LineOf(Padded(row, widths))
  {
    forall i | 0 <= i < |row| ensures '\n' !in Padded(row, widths)[i] {
      EscapeKeepsLine(row[i]);
    }
    JoinOnOneLine(" | ", Padded(row, widths));
  }

  ghost predicate AllTidy(row: seq<string>) {
    forall i :: 0 <= i < |row| ==> Tidy(row[i])
  }

  ghost predicate TidyTable(t: Table) {
    AllTidy(t.headers) && forall row :: row in t.rows ==> AllTidy(row)
  }

  lemma OneLineEachOf(head: string, rule: string, rows: seq<string>)
    requires '\n' !in head && '\n' !in rule && OneLineEach(rows)
    ensures OneLineEach([head, rule] + rows)
  {
  }

  lemma RowsOnOneLineEach(rows: seq<seq<string>>, widths: seq<nat>)
    requires forall row :: row in rows ==> |row| == |widths| && AllTidy(row)
    ensures OneLineEach(RowLines(rows, widths))
  {
    forall k | 0 <= k < |rows| ensures '\n' !in RowLines(rows, widths)[k] {
      assert rows[k] in rows;
      RowOnOneLine(rows[k], widths);
    }
  }

  lemma MarkdownOnOneLineEach(t: Table)
    requires Rectangular(t) && TidyTable(t)
    ensures OneLineEach(MarkdownLines(t))
  {
    var ws := Widths(t);
    RowOnOneLine(t.headers, ws);
    JoinOnOneLine(" | ", Rule(ws));
    RowsOnOneLineEach(t.rows, ws);
    OneLineEachOf(LineOf(Padded(t.headers, ws)), LineOf(Rule(ws)), RowLines(t.rows, ws));
  }

  lemma LinesReadBack(head: string, rule: string, rows: seq<string>, headers: seq<string>, cells: seq<seq<string>>)
    requires |rows| == |cells| && OneLineEach([head, rule] + rows)
    requires ReadLine(head) == headers && forall k :: 0 <= k < |rows| ==> ReadLine(rows[k]) == cells[k]
    ensures ReadTable(Join("\n", [head, rule] + rows)) == [headers] + cells
  {
    var lines := [head, rule] + rows;
    LinesSplit(lines);
    assert lines[0] == head && lines[2..] == rows;
    KeptReadBack(head, rows, headers, cells);
  }

  lemma KeptReadBack(head: string, rows: seq<string>, headers: seq<string>, cells: seq<seq<string>>)
    requires |rows| == |cells|
    requires ReadLine(head) == headers && forall k :: 0 <= k < |rows| ==> ReadLine(rows[k]) == cells[k]
    ensures ReadLines([head] + rows) == [headers] + cells
  {
  }

  lemma RowsReadBack(rows: seq<seq<string>>, widths: seq<nat>)
    requires widths != [] && forall row :: row in rows ==> |row| == |widths| && AllTidy(row)
    ensures forall k :: 0 <= k < |rows| ==> ReadLine(RowLines(rows, widths)[k]) == rows[k]
  {
    forall k | 0 <= k < |rows| ensures ReadLine(RowLines(rows, widths)[k]) == rows[k] {
      assert rows[k] in rows;
      RowReadsBack(rows[k], widths);
    }
  }

  /** The rendered table reads back as its headers and rows. */
  lemma TableReadsBack(t: Table)
    requires t.rows != [] && Rectangular(t) && t.headers != [] && TidyTable(t)
    ensures ReadTable(RenderMarkdown(t)) == Cells(t)
  {
    var ws := Widths(t);
    MarkdownOnOneLineEach(t);
    RowReadsBack(t.headers, ws);
    RowsReadBack(t.rows, ws);
    LinesReadBack(LineOf(Padded(t.headers, ws)), LineOf(Rule(ws)), RowLines(t.rows, ws), t.headers, t.rows);
  }
}
