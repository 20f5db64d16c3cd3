/**
 * `flattenItems` (serbian-fiscal-bill-parser.ts, lines 74-114): the items
 * block of a receipt wraps long item rows over several physical lines. The
 * reconstructor glues them back into one logical line per item; a logical
 * line ends at an indented row of numbers.
 */
module LineReconstructor {
  import opened Options
  import opened Seqs
  import opened JsString
  import opened LocaleNumber

  /** The physical lines: `body.replace(/\r\n/g, '\n').split('\n')`. */
  function BodyLines(body: string): (ls: seq<string>)
    ensures |ls| >= 1
    ensures forall k :: 0 <= k < |ls| ==> '\n' !in ls[k]
  {
    var ls := Split(ReplaceAll(body, "\r\n", "\n"), "\n");
    assert forall k :: 0 <= k < |ls| ==> '\n' !in ls[k] by {
      forall k | 0 <= k < |ls| ensures '\n' !in ls[k] {
        ContainsChar(ls[k], '\n');
      }
    }
    ls
  }

  /**
   * The first word of the trimmed row with its first `.` removed and its
   * first `,` turned into `.`: what the row's numeric test parses.
   */
  function LeadToken(l: string): string
  {
    ReplaceFirst(ReplaceFirst(FirstWord(Trim(l)), ".", ""), ",", ".")
  }

  /** Where the word starting at `i` ends: the next space, or the end of `t`. */
  function WordEnd(t: string, i: nat): (r: nat)
    requires i <= |t|
    ensures i <= r <= |t| && (r < |t| ==> t[r] == ' ')
    ensures forall j :: i <= j < r ==> t[j] != ' '
    decreases |t| - i
  {
    if i == |t| || t[i] == ' ' then i else WordEnd(t, i + 1)
  }

  /** The text before the first space. */
  function FirstWord(t: string): string
  {
    t[..WordEnd(t, 0)]
  }

  /** `FirstWord` is the first piece of `t.split(' ')`. */
  lemma FirstWordIsFirstPiece(t: string)
    ensures FirstWord(t) == Split(t, " ")[0]
  {
    SplitFirst(t, " ");
    var e := WordEnd(t, 0);
    forall j | 0 <= j < e ensures !OccursAt(t, " ", j) {
      assert t[j..j + 1][0] == t[j];
    }
    if e < |t| {
      assert t[e..e + 1] == " ";
      assert OccursAt(t, " ", e);
      var r := IndexOf(t, " ");
      assert r != -1;
      assert !(r < e) && !(r > e);
    } else {
      forall j | 0 <= j ensures !OccursAt(t, " ", j) {
        if j < |t| {
          assert t[j..j + 1][0] == t[j];
        }
      }
      assert t[..e] == t;
    }
  }

  /**
   * A row that closes an item: it starts with a space, its first word parses
   * as a number, and the trimmed row ends in a run of price characters.
   */
  predicate IsTerminalRow(l: string) {
    l != [] && l[0] == ' ' && ParsesAsNumber(LeadToken(l)) && TrailingRun(Trim(l)).Some?
  }

  /** A replacement away from the first character keeps it. */
  lemma ReplaceFirstKeepsHead(s: string, pat: string, rep: string)
    requires s != [] && pat != [] && s[0] != pat[0]
    ensures ReplaceFirst(s, pat, rep) != [] && ReplaceFirst(s, pat, rep)[0] == s[0]
  {
    var i := IndexOf(s, pat);
    if i != -1 {
      assert s[i..i + |pat|][0] == s[i];
    }
  }

  /**
   * An indented row whose trimmed text starts with a digit and ends with a
   * price character closes an item: "     1.599,00          1        1.599,00".
   */
  lemma DigitLedRowCloses(l: string)
    requires l != [] && l[0] == ' '
    requires Trim(l) != [] && IsDigit(Trim(l)[0]) && IsPriceChar(Trim(l)[|Trim(l)| - 1])
    ensures IsTerminalRow(l)
  {
    LeadTokenHead(l);
    LeadingDigitParses(LeadToken(l));
  }

  /** The lead token starts where the trimmed row starts, when that is a digit. */
  lemma LeadTokenHead(l: string)
    requires Trim(l) != [] && IsDigit(Trim(l)[0])
    ensures LeadToken(l) != [] && LeadToken(l)[0] == Trim(l)[0]
  {
    var t := Trim(l);
    var w := FirstWord(t);
    assert WordEnd(t, 0) > 0;
    assert w[0] == t[0];
    ReplaceFirstKeepsHead(w, ".", "");
    ReplaceFirstKeepsHead(ReplaceFirst(w, ".", ""), ",", ".");
  }

  lemma LeadingDigitParses(x: string)
    requires x != [] && IsDigit(x[0])
    ensures ParsesAsNumber(x)
  {
    TrimStartOfNonWhitespace(x);
  }

  /** A closing row is indented and its trimmed text ends with a price character. */
  lemma TerminalRowShape(l: string)
    requires IsTerminalRow(l)
    ensures l[0] == ' ' && Trim(l) != [] && IsPriceChar(Trim(l)[|Trim(l)| - 1])
  {
  }

  /** The rows glued one after the other. */
  function Concat(ls: seq<string>): string
  {
    if ls == [] then [] else Concat(ls[..|ls| - 1]) + ls[|ls| - 1]
  }

  /*
   * The grouping below is stated for any test `closes` of a row that is
   * false on the empty row; the reconstructor uses `IsTerminalRow`.
   */

  /** The non-empty rows read since the last closing row: the item still open. */
  function Pending(ls: seq<string>, closes: string -> bool): seq<string>
  {
    if ls == [] then []
    else
      var l := ls[|ls| - 1];
      var p := Pending(ls[..|ls| - 1], closes);
      if l == [] then p else if closes(l) then [] else p + [l]
  }

  /** The rows of each closed item, in order: the pending rows and the row that closes them. */
  function Groups(ls: seq<string>, closes: string -> bool): seq<seq<string>>
  {
    if ls == [] then []
    else
      var l := ls[|ls| - 1];
      var g := Groups(ls[..|ls| - 1], closes);
      if l != [] && closes(l) then g + [Pending(ls[..|ls| - 1], closes) + [l]] else g
  }

  /** The rows of one item glued together, runs of spaces collapsed. */
  function Glue(g: seq<string>): string {
    CollapseSpaces(Concat(g))
  }

  /** One logical line per closed item: its rows glued, runs of spaces collapsed. */
  function Lines(ls: seq<string>, closes: string -> bool): seq<string>
  {
    Map(Glue, Groups(ls, closes))
  }

  /** The logical lines of the reconstructor: items are closed by terminal rows. */
  function LogicalLines(ls: seq<string>): (lines: seq<string>)
  {
    Lines(ls, IsTerminalRow)
  }

  /** `flattenItems`: the physical lines regrouped into logical lines, joined by `\n`. */
  method FlattenItems(body: string) returns (result: string)
    ensures result == Join(LogicalLines(BodyLines(body)), "\n")
  {
    var bodyLines := BodyLines(body);
    var lines := ReconstructLines(bodyLines);
    result := Join(lines, "\n");
  }

  /** The accumulator loop of `flattenItems` (lines 78-110). */
  method ReconstructLines(bodyLines: seq<string>) returns (lines: seq<string>)
    ensures lines == LogicalLines(bodyLines)
  {
    lines := [];
    var flattenedLine: string := [];
    var i := 0;
    while i < |bodyLines|
      invariant 0 <= i <= |bodyLines|
      invariant lines == Lines(bodyLines[..i], IsTerminalRow)
      invariant flattenedLine == CollapseSpaces(Concat(Pending(bodyLines[..i], IsTerminalRow)))
    {
      ghost var before := bodyLines[..i];
      PrefixGrows(bodyLines, i);
      lines, flattenedLine := TakeRow(before, bodyLines[i], lines, flattenedLine);
      i := i + 1;
    }
    assert bodyLines[..|bodyLines|] == bodyLines;
  }

  /** The next prefix is the last one and one more element. */
  lemma PrefixGrows<T>(s: seq<T>, i: nat)
    requires i < |s|
    ensures s[..i + 1] == s[..i] + [s[i]]
  {
  }

  /**
   * One pass of the loop: an empty row is skipped, a closing row ends the
   * pending item and emits its line, any other row joins the pending item.
   */
  method TakeRow(ghost before: seq<string>, bodyLine: string, lines: seq<string>, flattenedLine: string)
    returns (lines': seq<string>, flattenedLine': string)
    requires lines == Lines(before, IsTerminalRow)
    requires flattenedLine == CollapseSpaces(Concat(Pending(before, IsTerminalRow)))
    ensures lines' == Lines(before + [bodyLine], IsTerminalRow)
    ensures flattenedLine' == CollapseSpaces(Concat(Pending(before + [bodyLine], IsTerminalRow)))
  {
    lines', flattenedLine' := lines, flattenedLine;
    if bodyLine == [] {
      SkipEmptyRow(before, IsTerminalRow);
      return;
    }
    var closes := ClosesItem(bodyLine);
    if closes {
      CloseItem(before, bodyLine, IsTerminalRow);
      flattenedLine' := flattenedLine' + bodyLine;
      flattenedLine' := CollapseSpaces(flattenedLine');
      lines' := lines' + [flattenedLine'];
      flattenedLine' := [];
    } else {
      ContinueItem(before, bodyLine, IsTerminalRow);
      flattenedLine' := flattenedLine' + bodyLine;
      flattenedLine' := CollapseSpaces(flattenedLine');
    }
  }

  /**
   * The test of lines 89-95: a row that starts with a space, whose first word
   * parses as a number and whose trimmed text ends in a price run.
   */
  method ClosesItem(bodyLine: string) returns (closes: bool)
    ensures closes == IsTerminalRow(bodyLine)
  {
    closes := false;
    if bodyLine != [] && bodyLine[0] == ' ' {
      var first := LeadToken(bodyLine);
      var endsWithPrice := TrailingRun(Trim(bodyLine));
      closes := ParsesAsNumber(first) && endsWithPrice.Some?;
    }
  }

  /** An empty row changes nothing. */
  lemma SkipEmptyRow(ls: seq<string>, closes: string -> bool)
    ensures Pending(ls + [[]], closes) == Pending(ls, closes)
    ensures Lines(ls + [[]], closes) == Lines(ls, closes)
  {
    assert (ls + [[]])[..|ls|] == ls;
    assert Groups(ls + [[]], closes) == Groups(ls, closes);
  }

  /** A closing row ends the pending item and adds its logical line. */
  lemma CloseItem(ls: seq<string>, l: string, closes: string -> bool)
    requires l != [] && closes(l)
    ensures CollapseSpaces(Concat(Pending(ls + [l], closes))) == []
    ensures Lines(ls + [l], closes) == Lines(ls, closes) + [CollapseSpaces(CollapseSpaces(Concat(Pending(ls, closes))) + l)]
  {
    var p := Pending(ls, closes);
    CollapseAppend(Concat(p), l);
    assert (ls + [l])[..|ls|] == ls;
    assert (p + [l])[..|p|] == p;
    assert Groups(ls + [l], closes) == Groups(ls, closes) + [p + [l]];
    MapAppend(Glue, Groups(ls, closes), p + [l]);
  }

  /** Any other row joins the pending item. */
  lemma ContinueItem(ls: seq<string>, l: string, closes: string -> bool)
    requires l != [] && !closes(l)
    ensures CollapseSpaces(Concat(Pending(ls + [l], closes))) == CollapseSpaces(CollapseSpaces(Concat(Pending(ls, closes))) + l)
    ensures Lines(ls + [l], closes) == Lines(ls, closes)
  {
    var p := Pending(ls, closes);
    CollapseAppend(Concat(p), l);
    assert (ls + [l])[..|ls|] == ls;
    assert (p + [l])[..|p|] == p;
    assert Groups(ls + [l], closes) == Groups(ls, closes);
  }

  /** A name row wrapped before its numbers row comes out as one line. */
  lemma WrappedItem(name: string, numbers: string, closes: string -> bool)
    requires name != [] && !closes(name) && numbers != [] && closes(numbers)
    ensures Lines([name, numbers], closes) == [CollapseSpaces(name + numbers)]
  {
    assert [] + [name] == [name];
    ContinueItem([], name, closes);
    assert CollapseSpaces(Concat(Pending([name], closes))) == CollapseSpaces(name) by {
      assert Concat([]) == [] && CollapseSpaces([]) == [];
      assert [] + name == name;
    }
    assert [name] + [numbers] == [name, numbers];
    CloseItem([name], numbers, closes);
    CollapseAppend(name, numbers);
  }

  /** The number of rows in `ls` that close an item. */
  function ClosingCount(ls: seq<string>, closes: string -> bool): nat
  {
    if ls == [] then 0
    else ClosingCount(ls[..|ls| - 1], closes) + (if ls[|ls| - 1] != [] && closes(ls[|ls| - 1]) then 1 else 0)
  }

  /** One logical line per closing row, whatever else the block holds. */
  lemma {:induction false} LineCountIsClosingCount(ls: seq<string>, closes: string -> bool)
    ensures |Lines(ls, closes)| == ClosingCount(ls, closes)
    decreases |ls|
  {
    if ls != [] {
      LineCountIsClosingCount(ls[..|ls| - 1], closes);
    }
  }

  /** The open item holds non-empty rows that do not close it. */
  lemma {:induction false} PendingShape(ls: seq<string>, closes: string -> bool)
    ensures forall k :: 0 <= k < |Pending(ls, closes)| ==> Pending(ls, closes)[k] != [] && !closes(Pending(ls, closes)[k])
    decreases |ls|
  {
    if ls != [] {
      var init := ls[..|ls| - 1];
      PendingShape(init, closes);
      var l := ls[|ls| - 1];
      var p := Pending(init, closes);
      if l != [] && !closes(l) {
        assert forall j :: 0 <= j < |p| ==> (p + [l])[j] == p[j];
      }
    }
  }

  /** Every item ends with its closing row; the rows before it are non-empty and do not close. */
  lemma {:induction false} GroupShape(ls: seq<string>, closes: string -> bool)
    ensures forall k :: 0 <= k < |Groups(ls, closes)| ==>
              var g := Groups(ls, closes)[k];
              g != [] && closes(g[|g| - 1])
              && forall j :: 0 <= j < |g| - 1 ==> g[j] != [] && !closes(g[j])
    decreases |ls|
  {
    if ls != [] {
      var init := ls[..|ls| - 1];
      GroupShape(init, closes);
      var l := ls[|ls| - 1];
      if l != [] && closes(l) {
        var p := Pending(init, closes);
        PendingShape(init, closes);
        var g := p + [l];
        assert forall j :: 0 <= j < |g| - 1 ==> g[j] == p[j];
      }
    }
  }

  /** All the rows of the closed items, glued in order. */
  function ConcatGroups(gs: seq<seq<string>>): string
  {
    if gs == [] then [] else ConcatGroups(gs[..|gs| - 1]) + Concat(gs[|gs| - 1])
  }

  /**
   * Nothing is lost or reordered: the closed items followed by the pending
   * rows spell out the whole block. The pending rows are the only text that
   * never reaches the output.
   */
  lemma {:induction false} NothingLost(ls: seq<string>, closes: string -> bool)
    ensures ConcatGroups(Groups(ls, closes)) + Concat(Pending(ls, closes)) == Concat(ls)
    decreases |ls|
  {
    if ls != [] {
      var init := ls[..|ls| - 1];
      var l := ls[|ls| - 1];
      NothingLost(init, closes);
      var p := Pending(init, closes);
      var gs := Groups(init, closes);
      assert Concat(ls) == Concat(init) + l;
      if l == [] {
        assert Concat(ls) == Concat(init);
      } else if closes(l) {
        assert (gs + [p + [l]])[..|gs|] == gs;
        assert (p + [l])[..|p|] == p;
        assert ConcatGroups(gs + [p + [l]]) == ConcatGroups(gs) + (Concat(p) + l);
      } else {
        assert (p + [l])[..|p|] == p;
        assert Concat(p + [l]) == Concat(p) + l;
      }
    }
  }

  /** A block with no closing row yields no line at all. */
  lemma {:induction false} NoClosingRowNoLine(ls: seq<string>, closes: string -> bool)
    requires forall k :: 0 <= k < |ls| ==> ls[k] == [] || !closes(ls[k])
    ensures Lines(ls, closes) == []
    decreases |ls|
  {
    if ls != [] {
      NoClosingRowNoLine(ls[..|ls| - 1], closes);
    }
  }

  /**
   * A terminal row is indented, so a block none of whose rows starts with a
   * space yields no line: rows that are already flat are not passed through.
   */
  lemma UnindentedBlockYieldsNothing(ls: seq<string>)
    requires forall k :: 0 <= k < |ls| ==> ls[k] == [] || ls[k][0] != ' '
    ensures LogicalLines(ls) == []
  {
    NoClosingRowNoLine(ls, IsTerminalRow);
  }

  /**
   * The items segment is the output split at `\n`: the logical lines
   * themselves, or the single empty segment when no item was closed.
   */
  lemma SegmentsOfFlattened(body: string)
    ensures var lines := LogicalLines(BodyLines(body));
            Split(Join(lines, "\n"), "\n") == if lines == [] then [[]] else lines
  {
    var ls := BodyLines(body);
    var lines := LogicalLines(ls);
    if lines == [] {
      assert Join(lines, "\n") == [];
      assert IndexOf([], "\n") == -1;
    } else {
      forall k | 0 <= k < |lines| ensures '\n' !in lines[k] {
        RowsOfGroups(ls, IsTerminalRow);
        ConcatWithout(Groups(ls, IsTerminalRow)[k], '\n');
      }
      SplitJoin(lines, '\n');
    }
  }

  /** The rows of every item come from the block. */
  lemma {:induction false} RowsOfGroups(ls: seq<string>, closes: string -> bool)
    ensures forall k, j :: 0 <= k < |Groups(ls, closes)| && 0 <= j < |Groups(ls, closes)[k]| ==> Groups(ls, closes)[k][j] in ls
    ensures forall j :: 0 <= j < |Pending(ls, closes)| ==> Pending(ls, closes)[j] in ls
    decreases |ls|
  {
    if ls != [] {
      var init := ls[..|ls| - 1];
      RowsOfGroups(init, closes);
      assert forall x :: x in init ==> x in ls;
    }
  }

  lemma {:induction false} ConcatWithout(ls: seq<string>, c: char)
    requires forall j :: 0 <= j < |ls| ==> c !in ls[j]
    ensures c !in Concat(ls)
    decreases |ls|
  {
    if ls != [] {
      ConcatWithout(ls[..|ls| - 1], c);
    }
  }
}
