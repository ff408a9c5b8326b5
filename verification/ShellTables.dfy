/** The column layout of `.tables` (sqlite/shell.c): names run down the columns. */
module ShellTables {
  import opened CText
  import opened TextLayout
  import opened TextLines
  import opened Wrappers

  function NameOf(name: Option<string>): string {
    if name.None? then "" else name.value
  }

  /** The length of the longest name. */
  function Longest(names: seq<Option<string>>): nat {
    if names == [] then 0
    else
      var rest, last := Longest(names[..|names| - 1]), |NameOf(names[|names| - 1])|;
      if last > rest then last else rest
  }

  lemma {:induction false} LongestMeaning(names: seq<Option<string>>)
    ensures forall k | 0 <= k < |names| :: |NameOf(names[k])| <= Longest(names)
    ensures names == [] || exists k: nat :: k < |names| && |NameOf(names[k])| == Longest(names)
  {
    if names == [] {
    } else {
      var init := names[..|names| - 1];
      LongestMeaning(init);
      if |NameOf(names[|names| - 1])| <= Longest(init) && init != [] {
        var k: nat :| k < |init| && |NameOf(init[k])| == Longest(init);
        assert names[k] == init[k];
      } else {
        assert |NameOf(names[|names| - 1])| == Longest(names);
      }
    }
  }

  /** How many names stand side by side. */
  function PrintColumns(total: nat, maxlen: nat): (c: nat)
    ensures c > 0
  {
    if total / (maxlen + 2) < 1 then 1 else total / (maxlen + 2)
  }

  /** How many lines there are. */
  function PrintRows(n: nat, columns: nat): nat
    requires columns > 0
  {
    (n + columns - 1) / columns
  }

  /** The names on a line: every `rows`-th from `k` on. */
  function Cells(k: nat, n: nat, rows: nat): seq<nat>
    requires rows > 0
    decreases n - k
  {
    if k >= n then [] else [k] + Cells(k + rows, n, rows)
  }

  /** The names of all lines from line `i` on, in the order in which they are printed. */
  function CellsOfLines(i: nat, n: nat, rows: nat): seq<nat>
    requires i <= rows
    decreases rows - i
  {
    if i == rows then [] else Cells(i, n, rows) + CellsOfLines(i + 1, n, rows)
  }

  function CellName(names: seq<Option<string>>, k: nat): string {
    if k < |names| then NameOf(names[k]) else ""
  }

  /** The padded text of a cell. */
  function CellText(names: seq<Option<string>>, k: nat, maxlen: nat): string {
    Padded(CellName(names, k), maxlen)
  }

  function MoreOfLine(names: seq<Option<string>>, cells: seq<nat>, maxlen: nat): string
    decreases |cells|
  {
    if cells == [] then "" else ("  " + CellText(names, cells[0], maxlen)) + MoreOfLine(names, cells[1..], maxlen)
  }

  /** A line: padded names with two blanks between each two. */
  function Line(names: seq<Option<string>>, cells: seq<nat>, maxlen: nat): string {
    if cells == [] then "" else CellText(names, cells[0], maxlen) + MoreOfLine(names, cells[1..], maxlen)
  }

  // --------------------------------------------------- each name exactly once

  /** The line on which name `x` stands. */
  function LineOf(x: nat, rows: nat): (i: nat)
    requires rows > 0
    ensures i < rows && i <= x
  {
    if x < rows then x else LineOf(x - rows, rows)
  }

  lemma {:induction false} NextOnLine(x: nat, k: nat, rows: nat)
    requires rows > 0 && LineOf(x, rows) == LineOf(k, rows) && k < x
    ensures k + rows <= x
    decreases k
  {
    if k < rows {
    } else {
      NextOnLine(x - rows, k - rows, rows);
    }
  }

  /** How often `x` is in the sequence. */
  function Times(s: seq<nat>, x: nat): nat {
    if s == [] then 0 else (if s[0] == x then 1 else 0) + Times(s[1..], x)
  }

  lemma {:induction false} TimesConcat(a: seq<nat>, b: seq<nat>, x: nat)
    ensures Times(a + b, x) == Times(a, x) + Times(b, x)
  {
    if a == [] {
      assert a + b == b;
    } else {
      assert (a + b)[1..] == a[1..] + b;
      TimesConcat(a[1..], b, x);
    }
  }

  /** `x` is among the cells from `k` on exactly if it is on that line, and once. */
  lemma {:induction false} CellsCount(k: nat, n: nat, rows: nat, x: nat)
    requires rows > 0
    ensures Times(Cells(k, n, rows), x) == if k <= x < n && LineOf(x, rows) == LineOf(k, rows) then 1 else 0
    decreases n - k
  {
    if k >= n {
    } else {
      var rest := Cells(k + rows, n, rows);
      assert ([k] + rest)[1..] == rest;
      CellsCount(k + rows, n, rows, x);
      assert LineOf(k + rows, rows) == LineOf(k, rows);
      if k < x && LineOf(x, rows) == LineOf(k, rows) {
        NextOnLine(x, k, rows);
      }
    }
  }

  lemma {:induction false} LinesCount(i: nat, n: nat, rows: nat, x: nat)
    requires i <= rows && rows > 0
    ensures Times(CellsOfLines(i, n, rows), x) == if x < n && LineOf(x, rows) >= i then 1 else 0
    decreases rows - i
  {
    if i == rows {
    } else {
      TimesConcat(Cells(i, n, rows), CellsOfLines(i + 1, n, rows), x);
      CellsCount(i, n, rows, x);
      LinesCount(i + 1, n, rows, x);
    }
  }

  lemma MoreTimes(a: int, b: int, r: nat)
    requires a >= b
    ensures a * r >= b * r
  {
    assert a * r == b * r + (a - b) * r;
  }

  lemma LessByFactor(a: int, b: int, r: nat)
    requires a * r < b * r
    ensures a < b
  {
    if a >= b {
      MoreTimes(a, b, r);
    }
  }

  /** The lines suffice, and none is empty. */
  lemma RowsSuffice(n: nat, columns: nat)
    requires columns > 0
    ensures var rows := PrintRows(n, columns);
      n <= columns * rows && rows <= n && (n > 0 ==> rows > 0)
  {
    var m, rows := n + columns - 1, PrintRows(n, columns);
    assert m == columns * rows + m % columns;
    if n > 0 {
      assert (n + 1) * columns == n * columns + columns;
      MoreTimes(columns, 1, n);
      LessByFactor(rows, n + 1, columns);
    }
  }

  /** Every name is printed exactly once, and nothing else is. */
  lemma EachNameOnce(n: nat, columns: nat, x: nat)
    requires columns > 0
    ensures Times(CellsOfLines(0, n, PrintRows(n, columns)), x) == if x < n then 1 else 0
  {
    RowsSuffice(n, columns);
    if n > 0 {
      LinesCount(0, n, PrintRows(n, columns), x);
    }
  }

  // -------------------------------------------------------------------- width

  lemma OneMore(c: int, w: nat)
    ensures c * w == (c - 1) * w + w
  {
  }

  lemma {:induction false} MoreWidth(names: seq<Option<string>>, cells: seq<nat>, maxlen: nat, w: nat)
    requires w == maxlen + 2 && forall k | 0 <= k < |names| :: |NameOf(names[k])| <= maxlen
    ensures |MoreOfLine(names, cells, maxlen)| == |cells| * w
    decreases |cells|
  {
    if cells == [] {
    } else {
      MoreWidth(names, cells[1..], maxlen, w);
      OneMore(|cells|, w);
    }
  }

  lemma LineWidth(names: seq<Option<string>>, cells: seq<nat>, maxlen: nat, w: nat)
    requires w == maxlen + 2 && forall k | 0 <= k < |names| :: |NameOf(names[k])| <= maxlen
    requires cells != []
    ensures |Line(names, cells, maxlen)| == |cells| * w - 2
  {
    MoreWidth(names, cells[1..], maxlen, w);
    OneMore(|cells|, w);
  }

  /** The cells of a line reach no further than the names go. */
  lemma {:induction false} CellsReach(k: nat, n: nat, rows: nat)
    requires rows > 0 && k < n
    ensures |Cells(k, n, rows)| > 0 && k + (|Cells(k, n, rows)| - 1) * rows < n
    decreases n - k
  {
    var rest := |Cells(k + rows, n, rows)|;
    if k + rows >= n {
    } else {
      CellsReach(k + rows, n, rows);
      assert rest * rows == (rest - 1) * rows + rows;
    }
  }

  /** No line has more names than columns were reckoned. */
  lemma {:induction false} CellsFit(i: nat, n: nat, columns: nat)
    requires columns > 0 && i < PrintRows(n, columns)
    ensures 0 < |Cells(i, n, PrintRows(n, columns))| <= columns
  {
    var rows := PrintRows(n, columns);
    RowsSuffice(n, columns);
    CellsReach(i, n, rows);
    LessByFactor(|Cells(i, n, rows)| - 1, columns, rows);
  }

  /** The lines of the table. */
  function TableLine(names: seq<Option<string>>, total: nat, i: nat): string
    requires i < PrintRows(|names|, PrintColumns(total, Longest(names)))
  {
    var rows := PrintRows(|names|, PrintColumns(total, Longest(names)));
    Line(names, Cells(i, |names|, rows), Longest(names))
  }

  lemma ColumnsFit(c: nat, maxlen: nat, total: nat)
    requires 0 < c <= PrintColumns(total, maxlen)
    ensures maxlen + 2 <= c * (maxlen + 2)
    ensures c == 1 || c * (maxlen + 2) <= total
  {
    var w := maxlen + 2;
    MoreTimes(c, 1, w);
    if c > 1 {
      var q := total / w;
      assert total == w * q + total % w;
      MoreTimes(q, c, w);
    }
  }

  /** There are as many columns as fit the width, or one. */
  lemma ColumnsAreMost(total: nat, maxlen: nat)
    ensures var c := PrintColumns(total, maxlen);
      (c + 1) * (maxlen + 2) > total && (c == 1 || c * (maxlen + 2) <= total)
  {
    var w := maxlen + 2;
    var q := total / w;
    assert total == w * q + total % w;
    OneMore(q + 1, w);
    if q == 0 {
      OneMore(2, w);
    }
  }

  /** There are no more lines than it takes. */
  lemma RowsAreFewest(n: nat, columns: nat)
    requires columns > 0 && n > 0
    ensures (PrintRows(n, columns) - 1) * columns < n <= PrintRows(n, columns) * columns
  {
    var m := n + columns - 1;
    var q := m / columns;
    assert m == columns * q + m % columns;
    OneMore(q, columns);
  }

  /** A line is as long as the longest name, or at least two short of the total. */
  lemma {:induction false} LineFits(names: seq<Option<string>>, total: nat, i: nat)
    requires i < PrintRows(|names|, PrintColumns(total, Longest(names)))
    ensures var w := |TableLine(names, total, i)|;
      Longest(names) <= w && (w == Longest(names) || w + 2 <= total)
  {
    var columns := PrintColumns(total, Longest(names));
    var cells := Cells(i, |names|, PrintRows(|names|, columns));
    LongestMeaning(names);
    CellsFit(i, |names|, columns);
    LineWidth(names, cells, Longest(names), Longest(names) + 2);
    ColumnsFit(|cells|, Longest(names), total);
  }

  /** All lines fit the width exactly if the longest name does. */
  lemma {:induction false} FitsIff(names: seq<Option<string>>, total: nat)
    requires names != []
    ensures var rows := PrintRows(|names|, PrintColumns(total, Longest(names)));
      (forall i | 0 <= i < rows :: |TableLine(names, total, i)| <= total) <==> Longest(names) <= total
  {
    var rows := PrintRows(|names|, PrintColumns(total, Longest(names)));
    RowsSuffice(|names|, PrintColumns(total, Longest(names)));
    forall i: nat | i < rows
      ensures Longest(names) <= |TableLine(names, total, i)|
      ensures Longest(names) <= total ==> |TableLine(names, total, i)| <= total
    {
      LineFits(names, total, i);
    }
    assert |TableLine(names, total, 0)| >= Longest(names);
  }

  // ---------------------------------------------------------- where names stand

  /** `c` steps of `w` each. */
  function Steps(c: nat, w: nat): nat {
    if c == 0 then 0 else Steps(c - 1, w) + w
  }

  /** Cell `c` of a line is the name `c` times the number of lines further on. */
  lemma {:induction false} CellIs(k: nat, n: nat, rows: nat, c: nat)
    requires rows > 0
    ensures c < |Cells(k, n, rows)| <==> k + Steps(c, rows) < n
    ensures c < |Cells(k, n, rows)| ==> Cells(k, n, rows)[c] == k + Steps(c, rows)
    decreases c
  {
    if c == 0 {
    } else if k < n {
      CellIs(k + rows, n, rows, c - 1);
    }
  }

  ghost predicate AllWithin(names: seq<Option<string>>, maxlen: nat) {
    forall k | 0 <= k < |names| :: |NameOf(names[k])| <= maxlen
  }

  /** What is printed for a cell that is not the first. */
  function MorePiece(names: seq<Option<string>>, k: nat, maxlen: nat): string {
    "  " + CellText(names, k, maxlen)
  }

  /** Before its cell `c` the rest of a line has `p`, behind it `q`. */
  ghost predicate CutAt(names: seq<Option<string>>, cells: seq<nat>, c: nat, maxlen: nat, p: string, q: string)
    requires c < |cells|
  {
    && MoreOfLine(names, cells, maxlen) == p + (MorePiece(names, cells[c], maxlen) + q)
    && |p| == Steps(c, maxlen + 2)
  }

  lemma CellWidth(names: seq<Option<string>>, k: nat, maxlen: nat)
    requires k < |names| && |CellName(names, k)| <= maxlen
    ensures |CellText(names, k, maxlen)| == maxlen && CellText(names, k, maxlen) == Padded(CellName(names, k), maxlen)
  {
  }

  lemma CutOn(names: seq<Option<string>>, cells: seq<nat>, c: nat, maxlen: nat, p: string, q: string)
    requires 0 < c < |cells| && cells[0] < |names| && |CellName(names, cells[0])| <= maxlen
    requires CutAt(names, cells[1..], c - 1, maxlen, p, q)
    ensures CutAt(names, cells, c, maxlen, MorePiece(names, cells[0], maxlen) + p, q)
  {
    CellWidth(names, cells[0], maxlen);
    assert cells[1..][c - 1] == cells[c];
    AppendAssoc(MorePiece(names, cells[0], maxlen), p, MorePiece(names, cells[c], maxlen) + q);
  }

  ghost predicate InRange(cells: seq<nat>, n: nat) {
    forall k | 0 <= k < |cells| :: cells[k] < n
  }

  lemma {:induction false} CellsInRange(k: nat, n: nat, rows: nat)
    requires rows > 0
    ensures InRange(Cells(k, n, rows), n)
    decreases n - k
  {
    if k >= n {
    } else {
      CellsInRange(k + rows, n, rows);
    }
  }

  lemma {:induction false} MoreCut(names: seq<Option<string>>, cells: seq<nat>, c: nat, maxlen: nat)
    requires c < |cells| && InRange(cells, |names|) && AllWithin(names, maxlen)
    ensures exists p: string, q: string :: CutAt(names, cells, c, maxlen, p, q)
    decreases |cells|
  {
    if c == 0 {
      var q := MoreOfLine(names, cells[1..], maxlen);
      NothingBefore(MorePiece(names, cells[0], maxlen) + q);
      assert CutAt(names, cells, 0, maxlen, "", q);
    } else {
      MoreCut(names, cells[1..], c - 1, maxlen);
      var p: string, q: string :| CutAt(names, cells[1..], c - 1, maxlen, p, q);
      CutOn(names, cells, c, maxlen, p, q);
    }
  }

  ghost predicate Between(t: string, p: string, gap: string, q: string) {
    t == (p + gap) + q
  }

  /** Two blanks end at `at`, unless the line begins there. */
  ghost predicate Apart(t: string, at: nat) {
    at == 0 || exists p: string, q: string :: Between(t, p, "  ", q) && |p| + 2 == at
  }

  lemma PieceStands(first: string, p: string, name: string, maxlen: nat, q: string)
    requires |name| <= maxlen
    ensures var t := first + (p + (("  " + Padded(name, maxlen)) + q));
      InField(t, |first| + |p| + 2, name, maxlen) && Apart(t, |first| + |p| + 2)
  {
    var text := Padded(name, maxlen);
    var t, b := first + (p + (("  " + text) + q)), first + p;
    AppendAssoc(first, p, ("  " + text) + q);
    AppendAssoc("  ", text, q);
    AppendAssoc(b, "  ", text + q);
    PaddedInField(b + "  ", name, maxlen, q);
    assert t == (b + "  ") + (text + q);
    assert Between(t, b, "  ", text + q);
  }

  /** The name stands at `at` in its field, apart from the one before. */
  ghost predicate CellStands(t: string, at: nat, name: string, maxlen: nat) {
    InField(t, at, name, maxlen) && Apart(t, at)
  }

  lemma FirstStands(names: seq<Option<string>>, cells: seq<nat>, maxlen: nat)
    requires cells != [] && cells[0] < |names| && |CellName(names, cells[0])| <= maxlen
    ensures CellStands(Line(names, cells, maxlen), 0, CellName(names, cells[0]), maxlen)
  {
    CellWidth(names, cells[0], maxlen);
    PaddedInField("", CellName(names, cells[0]), maxlen, MoreOfLine(names, cells[1..], maxlen));
    NothingBefore(Line(names, cells, maxlen));
  }

  lemma {:induction false} OtherStands(names: seq<Option<string>>, cells: seq<nat>, c: nat, maxlen: nat)
    requires 0 < c < |cells| && InRange(cells, |names|) && AllWithin(names, maxlen)
    ensures CellStands(Line(names, cells, maxlen), Steps(c, maxlen + 2), CellName(names, cells[c]), maxlen)
  {
    MoreCut(names, cells[1..], c - 1, maxlen);
    var p: string, q: string :| CutAt(names, cells[1..], c - 1, maxlen, p, q);
    assert cells[1..][c - 1] == cells[c];
    CellWidth(names, cells[0], maxlen);
    CellWidth(names, cells[c], maxlen);
    PieceStands(CellText(names, cells[0], maxlen), p, CellName(names, cells[c]), maxlen, q);
  }

  lemma {:induction false} LineStands(names: seq<Option<string>>, cells: seq<nat>, c: nat, maxlen: nat)
    requires c < |cells| && InRange(cells, |names|) && AllWithin(names, maxlen)
    ensures CellStands(Line(names, cells, maxlen), Steps(c, maxlen + 2), CellName(names, cells[c]), maxlen)
  {
    if c == 0 {
      FirstStands(names, cells, maxlen);
    } else {
      OtherStands(names, cells, c, maxlen);
    }
  }

  /** On a line the names stand from left to right, each in a field as wide as the longest
      name, with two blanks before all but the first. */
  lemma {:induction false} NamesStand(names: seq<Option<string>>, i: nat, rows: nat, c: nat)
    requires i < rows && c < |Cells(i, |names|, rows)|
    ensures var cells, maxlen := Cells(i, |names|, rows), Longest(names);
      CellStands(Line(names, cells, maxlen), Steps(c, maxlen + 2), CellName(names, cells[c]), maxlen)
  {
    LongestMeaning(names);
    CellsInRange(i, |names|, rows);
    LineStands(names, Cells(i, |names|, rows), c, Longest(names));
  }

  // ----------------------------------------------------------------- printing

  /** The lines from line `i` on. */
  function LinesFrom(names: seq<Option<string>>, maxlen: nat, rows: nat, i: nat): string
    decreases rows - i
  {
    if i >= rows then ""
    else (Line(names, Cells(i, |names|, rows), maxlen) + "\n") + LinesFrom(names, maxlen, rows, i + 1)
  }

  /** All lines of the table. */
  function Table(names: seq<Option<string>>, total: nat): string {
    LinesFrom(names, Longest(names), PrintRows(|names|, PrintColumns(total, Longest(names))), 0)
  }

  function LineList(names: seq<Option<string>>, maxlen: nat, rows: nat, i: nat): seq<string>
    decreases rows - i
  {
    if i >= rows then [] else [Line(names, Cells(i, |names|, rows), maxlen)] + LineList(names, maxlen, rows, i + 1)
  }

  lemma {:induction false} LineListLength(names: seq<Option<string>>, maxlen: nat, rows: nat, i: nat)
    requires i <= rows
    ensures |LineList(names, maxlen, rows, i)| == rows - i
    decreases rows - i
  {
    if i == rows {
    } else {
      LineListLength(names, maxlen, rows, i + 1);
    }
  }

  lemma {:induction false} LineListAt(names: seq<Option<string>>, maxlen: nat, rows: nat, i: nat, k: nat)
    requires i <= k < rows && |LineList(names, maxlen, rows, i)| == rows - i
    ensures LineList(names, maxlen, rows, i)[k - i] == Line(names, Cells(k, |names|, rows), maxlen)
    decreases k - i
  {
    if i == k {
    } else {
      LineListAt(names, maxlen, rows, i + 1, k);
    }
  }

  lemma {:induction false} LinesAreEnded(names: seq<Option<string>>, maxlen: nat, rows: nat, i: nat)
    ensures LinesFrom(names, maxlen, rows, i) == Ended(LineList(names, maxlen, rows, i))
    decreases rows - i
  {
    if i >= rows {
    } else {
      var line := Line(names, Cells(i, |names|, rows), maxlen);
      LinesAreEnded(names, maxlen, rows, i + 1);
      EndedCons(line, LineList(names, maxlen, rows, i + 1));
      AppendAssoc(line, "\n", LinesFrom(names, maxlen, rows, i + 1));
    }
  }

  ghost predicate OnOneLine(names: seq<Option<string>>) {
    forall k | 0 <= k < |names| :: '\n' !in NameOf(names[k])
  }

  lemma CellOnOneLine(names: seq<Option<string>>, k: nat, maxlen: nat)
    requires OnOneLine(names)
    ensures '\n' !in CellText(names, k, maxlen)
  {
    var name := CellName(names, k);
    if |name| < maxlen {
      SpacesAreBlank(maxlen - |name|);
    }
  }

  lemma {:induction false} MoreOnOneLine(names: seq<Option<string>>, cells: seq<nat>, maxlen: nat)
    requires OnOneLine(names)
    ensures '\n' !in MoreOfLine(names, cells, maxlen)
    decreases |cells|
  {
    if cells == [] {
    } else {
      CellOnOneLine(names, cells[0], maxlen);
      MoreOnOneLine(names, cells[1..], maxlen);
    }
  }

  lemma {:induction false} ListOnOneLine(names: seq<Option<string>>, maxlen: nat, rows: nat, i: nat)
    requires OnOneLine(names)
    ensures NoNewlines(LineList(names, maxlen, rows, i))
    decreases rows - i
  {
    if i >= rows {
    } else {
      var cells := Cells(i, |names|, rows);
      if cells != [] {
        CellOnOneLine(names, cells[0], maxlen);
        MoreOnOneLine(names, cells[1..], maxlen);
      }
      ListOnOneLine(names, maxlen, rows, i + 1);
    }
  }

  lemma LinesAreRead(names: seq<Option<string>>, maxlen: nat, rows: nat)
    requires OnOneLine(names)
    ensures FileLines(LinesFrom(names, maxlen, rows, 0), 0) == LineList(names, maxlen, rows, 0)
  {
    var lines := LineList(names, maxlen, rows, 0);
    LinesAreEnded(names, maxlen, rows, 0);
    ListOnOneLine(names, maxlen, rows, 0);
    LinesBack(Ended(lines), 0, lines);
  }

  ghost predicate AreLines(lines: seq<string>, names: seq<Option<string>>, maxlen: nat, rows: nat) {
    |lines| == rows && forall i | 0 <= i < rows :: lines[i] == Line(names, Cells(i, |names|, rows), maxlen)
  }

  lemma ListIsLines(names: seq<Option<string>>, maxlen: nat, rows: nat)
    ensures AreLines(LineList(names, maxlen, rows, 0), names, maxlen, rows)
  {
    LineListLength(names, maxlen, rows, 0);
    forall i: nat | i < rows
      ensures LineList(names, maxlen, rows, 0)[i] == Line(names, Cells(i, |names|, rows), maxlen)
    {
      LineListAt(names, maxlen, rows, 0, i);
    }
  }

  /** What is printed, read line by line, is the lines of the table. */
  lemma {:induction false} TableIsLines(names: seq<Option<string>>, total: nat)
    requires OnOneLine(names)
    ensures AreLines(FileLines(Table(names, total), 0), names, Longest(names),
                     PrintRows(|names|, PrintColumns(total, Longest(names))))
  {
    var maxlen := Longest(names);
    var rows := PrintRows(|names|, PrintColumns(total, maxlen));
    LinesAreRead(names, maxlen, rows);
    ListIsLines(names, maxlen, rows);
  }

  method Measure(names: seq<Option<string>>) returns (maxlen: nat)
    ensures maxlen == Longest(names)
  {
    maxlen := 0;
    for i := 0 to |names|
      invariant maxlen == Longest(names[..i])
    {
      assert names[..i + 1][..i] == names[..i];
      if names[i].Some? {
        var len := |names[i].value|;
        if len > maxlen {
          maxlen := len;
        }
      }
    }
    assert names[..|names|] == names;
  }

  /** A cell with the blanks before it: none in the first column. */
  function CellPiece(names: seq<Option<string>>, k: nat, rows: nat, maxlen: nat): string {
    (if k < rows then "" else "  ") + CellText(names, k, maxlen)
  }

  /** The rest of a line: names from `k` on, each but the first of the line after blanks. */
  function LineRest(names: seq<Option<string>>, k: nat, rows: nat, maxlen: nat): string
    requires rows > 0
    decreases |names| - k
  {
    if k >= |names| then ""
    else CellPiece(names, k, rows, maxlen) + LineRest(names, k + rows, rows, maxlen)
  }

  lemma FirstCell(cells: seq<nat>, k: nat, n: nat, rows: nat)
    requires rows > 0 && cells == Cells(k, n, rows)
    ensures if k >= n then cells == [] else cells != [] && cells[0] == k && cells[1..] == Cells(k + rows, n, rows)
  {
  }

  lemma {:induction false} MoreIsRest(names: seq<Option<string>>, cells: seq<nat>, k: nat, rows: nat, maxlen: nat)
    requires 0 < rows <= k && cells == Cells(k, |names|, rows)
    ensures LineRest(names, k, rows, maxlen) == MoreOfLine(names, cells, maxlen)
    decreases |cells|
  {
    FirstCell(cells, k, |names|, rows);
    if cells == [] {
    } else {
      MoreIsRest(names, cells[1..], k + rows, rows, maxlen);
    }
  }

  lemma LineIsRest(names: seq<Option<string>>, cells: seq<nat>, k: nat, rows: nat, maxlen: nat)
    requires k < rows && cells == Cells(k, |names|, rows)
    ensures LineRest(names, k, rows, maxlen) == Line(names, cells, maxlen)
  {
    FirstCell(cells, k, |names|, rows);
    if k < |names| {
      MoreIsRest(names, cells[1..], k + rows, rows, maxlen);
      assert "" + CellText(names, k, maxlen) == CellText(names, k, maxlen);
    }
  }

  /** The loop itself, from name `from` on. */
  method PutRest(out: Output, names: seq<Option<string>>, maxlen: nat, from: nat, rows: nat)
    requires 0 < from && rows > 0
    modifies out
    ensures out.text == old(out.text) + LineRest(names, from - 1, rows, maxlen)
  {
    ghost var goal := out.text + LineRest(names, from - 1, rows, maxlen);
    var j := from;
    while j <= |names|
      invariant 0 < j && out.text + LineRest(names, j - 1, rows, maxlen) == goal
    {
      out.PutPiece(CellPiece(names, j - 1, rows, maxlen), LineRest(names, j - 1 + rows, rows, maxlen),
                   LineRest(names, j - 1, rows, maxlen));
      j := j + rows;
    }
    assert out.text + "" == out.text;
  }

  /** The inner loop, which counts the names from 1 as the result array does. */
  method PutLine(out: Output, names: seq<Option<string>>, maxlen: nat, i: nat, rows: nat)
    requires i < rows
    modifies out
    ensures out.text == old(out.text) + Line(names, Cells(i, |names|, rows), maxlen)
  {
    LineIsRest(names, Cells(i, |names|, rows), i, rows, maxlen);
    PutRest(out, names, maxlen, i + 1, rows);
  }

  method PutLineAndEnd(out: Output, names: seq<Option<string>>, maxlen: nat, i: nat, rows: nat,
                       ghost rest: string, ghost whole: string)
    requires i < rows && whole == (Line(names, Cells(i, |names|, rows), maxlen) + "\n") + rest
    modifies out
    ensures out.text + rest == old(out.text) + whole
  {
    ghost var line := Line(names, Cells(i, |names|, rows), maxlen);
    AppendAssoc(out.text, line + "\n", rest);
    AppendAssoc(out.text, line, "\n");
    PutLine(out, names, maxlen, i, rows);
    out.Put("\n");
  }

  /** The outer loop. */
  method PutLines(out: Output, names: seq<Option<string>>, maxlen: nat, nPrintRow: nat)
    modifies out
    ensures out.text == old(out.text) + LinesFrom(names, maxlen, nPrintRow, 0)
  {
    ghost var goal := out.text + LinesFrom(names, maxlen, nPrintRow, 0);
    for i := 0 to nPrintRow
      invariant out.text + LinesFrom(names, maxlen, nPrintRow, i) == goal
    {
      PutLineAndEnd(out, names, maxlen, i, nPrintRow, LinesFrom(names, maxlen, nPrintRow, i + 1),
                    LinesFrom(names, maxlen, nPrintRow, i));
    }
    assert out.text + "" == out.text;
  }

  method CountRows(n: nat, total: nat, maxlen: nat) returns (nPrintRow: nat)
    ensures nPrintRow == PrintRows(n, PrintColumns(total, maxlen))
  {
    var nPrintCol := total / (maxlen + 2);
    if nPrintCol < 1 {
      nPrintCol := 1;
    }
    nPrintRow := (n + nPrintCol - 1) / nPrintCol;
  }

  /** What `.tables` prints when the query has succeeded. */
  method PrintTables(out: Output, names: seq<Option<string>>, total: nat)
    modifies out
    ensures out.text == old(out.text) + Table(names, total)
  {
    var maxlen := Measure(names);
    var nPrintRow := CountRows(|names|, total, maxlen);
    PutLines(out, names, maxlen, nPrintRow);
  }
}
