/** List output of the sqlite shell, its line reader and the splitter of `.import`
    (sqlite/shell.c), and why a table survives the trip. */
module ShellImport {
  import opened CText
  import opened ShellTypes
  import opened TextLines
  import opened Wrappers

  // ------------------------------------------------------------- list output

  /** Values with the separator between each two and `eol` behind the last. */
  function ListRow(values: seq<string>, sep: string, eol: string): string {
    if values == [] then ""
    else values[0] + ((if |values| > 1 then sep else eol) + ListRow(values[1..], sep, eol))
  }

  function ListTable(rows: seq<seq<string>>, sep: string): string {
    if rows == [] then "" else ListRow(rows[0], sep, "\n") + ListTable(rows[1..], sep)
  }

  /** What list mode shows for a column. */
  function Shown(f: Field, nullvalue: string): string {
    if f.Null? then nullvalue else f.text
  }

  function ShownRow(row: Row, nullvalue: string): seq<string> {
    seq(|row|, k requires 0 <= k < |row| => Shown(row[k], nullvalue))
  }

  /** What column `i` adds to the line. */
  function ListPart(values: seq<string>, i: nat, sep: string, eol: string): string
    requires i < |values|
  {
    values[i] + if i < |values| - 1 then sep else eol
  }

  lemma ListRowAt(values: seq<string>, i: nat, sep: string, eol: string)
    requires i < |values|
    ensures ListRow(values[i..], sep, eol) == ListPart(values, i, sep, eol) + ListRow(values[i + 1..], sep, eol)
  {
    assert values[i..][1..] == values[i + 1..];
    AppendAssoc(values[i], if i < |values| - 1 then sep else eol, ListRow(values[i + 1..], sep, eol));
  }

  /** What stands behind the last column. */
  function RowEnd(mode: Mode): string {
    if mode.SemiMode? then ";\n" else "\n"
  }

  method PutRow(p: CallbackData, values: seq<string>, eol: string)
    modifies p.out
    ensures p.out.text == old(p.out.text) + ListRow(values, p.separator, eol)
  {
    ghost var goal := p.out.text + ListRow(values, p.separator, eol);
    assert values[0..] == values;
    for i := 0 to |values|
      invariant p.out.text + ListRow(values[i..], p.separator, eol) == goal
    {
      ListRowAt(values, i, p.separator, eol);
      var mark := if i < |values| - 1 then p.separator else eol;
      p.out.PutPiece(values[i] + mark, ListRow(values[i + 1..], p.separator, eol), ListRow(values[i..], p.separator, eol));
    }
    assert values[|values|..] == [];
    assert p.out.text + "" == p.out.text;
  }

  /** `callback` in list or semicolon mode: the column names before the first row, if
      wanted, and the row, if there is one. */
  method CallbackList(p: CallbackData, azArg: Option<Row>, azCol: seq<string>)
    requires p.mode.ListMode? || p.mode.SemiMode?
    modifies p.out, p`cnt
    ensures p.cnt == old(p.cnt) + 1
    ensures p.out.text == old(p.out.text)
              + (if old(p.cnt) == 0 && p.showHeader then ListRow(azCol, p.separator, "\n") else "")
              + (if azArg.Some? then ListRow(ShownRow(azArg.value, p.nullvalue), p.separator, RowEnd(p.mode)) else "")
  {
    ghost var start := p.out.text;
    p.cnt := p.cnt + 1;
    if p.cnt == 1 && p.showHeader {
      PutRow(p, azCol, "\n");
    }
    assert p.out.text == start + if old(p.cnt) == 0 && p.showHeader then ListRow(azCol, p.separator, "\n") else "";
    if azArg.Some? {
      PutRow(p, ShownRow(azArg.value, p.nullvalue), RowEnd(p.mode));
    }
  }

  // ------------------------------------------------------------- line reader

  /** A stdio stream that is read. */
  class Input {
    const text: string
    var pos: nat

    constructor (text: string)
      ensures this.text == text && pos == 0
    {
      this.text, pos := text, 0;
    }

    /** fgets(3) of up to `size - 1` bytes to index `at` of the buffer. */
    method Fgets(buf: array<char>, at: nat, size: nat) returns (ok: bool)
      requires pos <= |text| && size >= 2 && at + size <= buf.Length
      modifies this, buf
      ensures ok <==> old(pos) < |text|
      ensures !ok ==> pos == old(pos) && buf[..] == old(buf[..])
      ensures ok ==> pos == old(pos) + LineLength(text[old(pos)..], size - 1) <= |text|
      ensures ok ==> StandsAt(buf, at, text[old(pos)..pos])
      ensures ok ==> forall k | 0 <= k < at :: buf[k] == old(buf[k])
    {
      if pos == |text| {
        return false;
      }
      ok := true;
      var n := LineLength(text[pos..], size - 1);
      forall k | 0 <= k < n {
        buf[at + k] := text[pos + k];
      }
      buf[at + n] := NUL;
      pos := pos + n;
    }
  }

  method Realloc(a: array<char>, size: nat) returns (b: array<char>)
    ensures fresh(b) && b.Length == size
    ensures forall k | 0 <= k < size && k < a.Length :: b[k] == a[k]
  {
    b := new char[size](_ => NUL);
    forall k | 0 <= k < size && k < a.Length {
      b[k] := a[k];
    }
  }

  /** Advances `n` over the chunk that stands at it. */
  method SkipChunk(zLine: array<char>, at: nat, ghost chunk: string) returns (n: nat)
    requires StandsAt(zLine, at, chunk)
    ensures n == at + Find(chunk, 0, NUL) && zLine[n] == NUL
    ensures forall k | at <= k < n :: zLine[k] != NUL
  {
    n := at;
    while zLine[n] != NUL
      invariant at <= n <= at + |chunk|
      invariant forall k | at <= k < n :: zLine[k] != NUL
      decreases at + |chunk| - n
    {
      n := n + 1;
    }
    FindIs(chunk, 0, NUL, n - at);
  }

  /** The line that starts at `i` has no NUL byte in it. */
  ghost predicate Clean(t: string, i: nat)
    requires i <= |t|
  {
    forall k | i <= k < Find(t, i, '\n') :: t[k] != NUL
  }

  /** The first `n` bytes of the line that starts at `i` stand in the buffer; the
      newline is not among them. */
  ghost predicate Gathered(t: string, i: nat, n: nat, buf: array<char>)
    requires i <= |t|
    reads buf
  {
    i + n <= Find(t, i, '\n') && n < buf.Length && forall k | 0 <= k < n :: buf[k] == t[i + k]
  }

  /** One `fgets` brings more of the line, up to its newline at most. */
  lemma ChunkOfLine(t: string, i: nat, at: nat, most: nat)
    requires i <= at < |t| && at <= Find(t, i, '\n') && most > 0 && Clean(t, i)
    ensures var k := LineLength(t[at..], most);
      && 0 < k && at + k <= |t| && at + k <= Find(t, i, '\n') + 1
      && Find(t[at..at + k], 0, NUL) == k
      && (t[at + k - 1] == '\n' <==> at + k == Find(t, i, '\n') + 1)
  {
    var e := Find(t, i, '\n');
    var k := LineLength(t[at..], most);
    FindMeaning(t, i, '\n');
    LineLengthMeaning(t[at..], most);
    forall j | at <= j < at + k - 1
      ensures t[j] != '\n'
    {
      assert t[j] == t[at..][j - at];
    }
    assert k < |t| - at ==> k == most || t[at..][k - 1] == t[at + k - 1];
    var chunk := t[at..at + k];
    forall j | 0 <= j < k
      ensures chunk[j] != NUL
    {
      assert chunk[j] == t[at + j];
    }
    FindIs(chunk, 0, NUL, k);
  }

  lemma GatherMore(t: string, i: nat, n: nat, pos: nat, buf: array<char>)
    requires i <= i + n <= pos <= |t| && Gathered(t, i, n, buf) && StandsAt(buf, n, t[i + n..pos])
    ensures forall k | 0 <= k < pos - i :: buf[k] == t[i + k]
  {
    forall k | n <= k < pos - i
      ensures buf[k] == t[i + k]
    {
      assert buf[n + (k - n)] == t[i + n..pos][k - n];
    }
  }

  /** The buffer holds `n` bytes and no NUL yet, or, with `eol`, a whole C string;
      of a line without NUL bytes it holds the beginning, or all of it. */
  ghost predicate Reading(t: string, start: nat, pos: nat, n: nat, eol: bool, buf: array<char>)
    reads buf
  {
    && start <= pos <= |t| && n < buf.Length
    && (n > 0 || eol ==> start < pos)
    && (forall k | 0 <= k < n :: buf[k] != NUL)
    && (eol ==> buf[n] == NUL)
    && (Clean(t, start) ==>
          && Gathered(t, start, n, buf)
          && if eol then start + n == Find(t, start, '\n') && pos == NextLine(t, start) else pos == start + n)
  }

  /** As `Reading`, but the buffer may hold the newline too. */
  ghost predicate ChunkTaken(t: string, start: nat, pos: nat, n: nat, buf: array<char>)
    reads buf
  {
    && start < pos <= |t| && n < buf.Length
    && (forall k | 0 <= k < n :: buf[k] != NUL) && buf[n] == NUL
    && (Clean(t, start) ==>
          pos == start + n && pos <= Find(t, start, '\n') + 1 && forall k | 0 <= k < n :: buf[k] == t[start + k])
  }

  method StripEol(zLine: array<char>, n: nat, ghost t: string, ghost start: nat, ghost pos: nat)
    returns (n': nat, eol: bool)
    requires ChunkTaken(t, start, pos, n, zLine)
    modifies zLine
    ensures Reading(t, start, pos, n', eol, zLine)
  {
    n', eol := n, false;
    FindMeaning(t, start, '\n');
    if n > 0 && zLine[n - 1] == '\n' {
      assert Clean(t, start) ==> t[start + (n - 1)] == '\n';
      n' := n - 1;
      zLine[n'] := NUL;
      eol := true;
    } else {
      assert Clean(t, start) ==> zLine[n - 1] == t[start + (n - 1)];
    }
  }

  /** Steps over what `fgets` has just stored. */
  method TakeChunk(input: Input, zLine: array<char>, n: nat, ghost start: nat, ghost at: nat)
    returns (n': nat)
    requires n + 2 <= zLine.Length && start <= at < |input.text|
    requires input.pos == at + LineLength(input.text[at..], zLine.Length - n - 1)
    requires StandsAt(zLine, n, input.text[at..input.pos]) && forall k | 0 <= k < n :: zLine[k] != NUL
    requires Clean(input.text, start) ==> Gathered(input.text, start, n, zLine) && at == start + n
    ensures ChunkTaken(input.text, start, input.pos, n', zLine)
  {
    ghost var t := input.text;
    LineLengthMeaning(t[at..], zLine.Length - n - 1);
    n' := SkipChunk(zLine, n, t[at..input.pos]);
    if Clean(t, start) {
      ChunkOfLine(t, start, at, zLine.Length - n - 1);
      GatherMore(t, start, n, input.pos, zLine);
    }
  }

  /** One round of the loop of `local_getline`. */
  method ReadChunk(input: Input, zLine: array<char>, n: nat, ghost start: nat)
    returns (got: bool, n': nat, eol: bool)
    requires n + 2 <= zLine.Length && Reading(input.text, start, input.pos, n, false, zLine)
    modifies input, zLine
    ensures got <==> old(input.pos) < |input.text|
    ensures got ==> Reading(input.text, start, input.pos, n', eol, zLine) && old(input.pos) < input.pos
    ensures !got ==> n' == n && input.pos == old(input.pos) && zLine[..] == old(zLine[..])
  {
    n', eol := n, false;
    got := input.Fgets(zLine, n, zLine.Length - n);
    if got {
      n' := TakeChunk(input, zLine, n, start, old(input.pos));
      n', eol := StripEol(zLine, n', input.text, start, input.pos);
    }
  }

  /** The growth of the buffer: with less than a unit of room it more than doubles. */
  method Grow(zLine: array<char>, n: nat, unit: nat, ghost t: string, ghost start: nat, ghost pos: nat)
    returns (bigger: array<char>)
    requires unit >= 2 && Reading(t, start, pos, n, false, zLine)
    ensures bigger == zLine || fresh(bigger)
    ensures n + unit <= bigger.Length && Reading(t, start, pos, n, false, bigger)
  {
    bigger := zLine;
    if n + unit > zLine.Length {
      bigger := Realloc(zLine, zLine.Length * 2 + unit);
    }
  }

  /** The final realloc, to the size of the line. */
  method ExactLine(zLine: array<char>, n: nat, ghost t: string, ghost start: nat, ghost pos: nat)
    returns (line: array<char>, ghost text: string)
    requires Reading(t, start, pos, n, true, zLine)
    ensures fresh(line) && line.Length == |text| + 1 && NUL !in text && StandsAt(line, 0, text)
    ensures Clean(t, start) ==> text == LineAt(t, start)
  {
    text := zLine[..n];
    line := Realloc(zLine, n + 1);
  }

  /** Reads one line of any length into a buffer of exactly its size, null at the
      end of the input.  A line without NUL bytes is read whole. */
  method LocalGetline(input: Input, unit: nat) returns (line: array?<char>, ghost text: string)
    requires input.pos <= |input.text| && unit >= 2
    modifies input
    ensures old(input.pos) <= input.pos <= |input.text|
    ensures line == null ==> input.pos == |input.text|
    ensures line != null ==> fresh(line) && line.Length == |text| + 1 && NUL !in text && StandsAt(line, 0, text)
    ensures line != null ==> old(input.pos) < input.pos
    ensures Clean(input.text, old(input.pos)) ==>
      && (line == null <==> old(input.pos) == |input.text|)
      && (line != null ==> text == LineAt(input.text, old(input.pos)) && input.pos == NextLine(input.text, old(input.pos)))
  {
    ghost var t, start := input.text, input.pos;
    var zLine := new char[unit](_ => NUL);
    var n: nat, eol := 0, false;
    while !eol
      invariant fresh(zLine) && Reading(t, start, input.pos, n, eol, zLine)
      decreases |t| - input.pos, !eol
    {
      zLine := Grow(zLine, n, unit, t, start, input.pos);
      var got;
      got, n, eol := ReadChunk(input, zLine, n, start);
      if !got {
        if n == 0 {
          return null, "";
        }
        zLine[n] := NUL;
        eol := true;
      }
    }
    line, text := ExactLine(zLine, n, t, start, input.pos);
  }

  // ---------------------------------------------------------------- splitter

  /** The part of a line that `.import` looks at ends here. */
  predicate LineStops(line: string, z: nat)
    requires z <= |line|
  {
    z == |line| || line[z] == '\n' || line[z] == '\r'
  }

  /** The columns of a line, when the current one began at `start` and the scan has
      come to `z`: separators are taken from left to right. */
  function Fields(line: string, start: nat, z: nat, sep: string): seq<string>
    requires start <= z <= |line| && sep != ""
    decreases |line| - z
  {
    if LineStops(line, z) then [line[start..z]]
    else if At(line, z, sep) then [line[start..z]] + Fields(line, z + |sep|, z + |sep|, sep)
    else Fields(line, start, z + 1, sep)
  }

  /** The columns of a whole line. */
  function Columns(line: string, sep: string): seq<string>
    requires sep != ""
  {
    Fields(line, 0, 0, sep)
  }

  /** From index `z` on the buffer still is the line and its terminator. */
  ghost predicate Untouched(zLine: array<char>, line: string, z: nat)
    reads zLine
  {
    |line| < zLine.Length && zLine[|line|] == NUL && forall k | z <= k < |line| :: zLine[k] == line[k]
  }

  /** strncmp of the text at `z` with the separator. */
  method Matches(zLine: array<char>, z: nat, sep: string, ghost line: string) returns (b: bool)
    requires z <= |line| && Untouched(zLine, line, z) && NUL !in sep
    ensures b <==> At(line, z, sep)
  {
    var j := 0;
    while j < |sep|
      invariant 0 <= j <= |sep| && z + j <= |line|
      invariant forall k | 0 <= k < j :: line[z + k] == sep[k]
    {
      if zLine[z + j] != sep[j] {
        assert z + j < |line| ==> line[z + j] == zLine[z + j];
        return false;
      }
      j := j + 1;
    }
    return true;
  }

  /** The first columns stand in the line, each terminated before `z`. */
  ghost predicate Standing(zLine: array<char>, azCol: array<nat>, columns: seq<string>, z: nat)
    reads zLine, azCol
  {
    && |columns| < azCol.Length
    && forall k | 0 <= k < |columns| :: StandsAt(zLine, azCol[k], columns[k]) && azCol[k] + |columns[k]| < z
  }

  /** The loop of the splitter: `columns` are complete, and unless there are too
      many the current one begins at `start`. */
  ghost predicate Splitting(line: string, sep: string, nCol: nat, columns: seq<string>, i: nat, start: nat, z: nat)
    requires sep != ""
  {
    if i < nCol then
      |columns| == i && start <= z <= |line| && Columns(line, sep) == columns + Fields(line, start, z, sep)
    else
      z <= |line| && |Columns(line, sep)| > nCol
  }

  lemma FieldsNotEmpty(line: string, start: nat, z: nat, sep: string)
    requires start <= z <= |line| && sep != ""
    ensures Fields(line, start, z, sep) != []
    decreases |line| - z
  {
  }

  lemma SplitAtSep(line: string, sep: string, nCol: nat, columns: seq<string>, i: nat, start: nat, z: nat)
    requires sep != "" && i < nCol && Splitting(line, sep, nCol, columns, i, start, z)
    requires !LineStops(line, z) && At(line, z, sep)
    ensures Splitting(line, sep, nCol, columns + [line[start..z]], i + 1, z + |sep|,
                      if i + 1 < nCol then z + |sep| else z + 1)
  {
    var rest := Fields(line, z + |sep|, z + |sep|, sep);
    FieldsNotEmpty(line, z + |sep|, z + |sep|, sep);
    assert columns + ([line[start..z]] + rest) == columns + [line[start..z]] + rest;
  }

  /** The buffers at the loop of the splitter: from `z` on, or from the start of the
      current column on, the line is as it was. */
  ghost predicate Holding(zLine: array<char>, azCol: array<nat>, line: string, nCol: nat, columns: seq<string>,
                          i: nat, start: nat, z: nat)
    reads zLine, azCol
  {
    && azCol.Length == nCol + 1 && Untouched(zLine, line, z)
    && (i < nCol ==>
          && |columns| == i && start <= z && azCol[i] == start
          && Standing(zLine, azCol, columns, start) && Untouched(zLine, line, start))
  }

  /** Ends the current column at the separator at `z`. */
  method CutColumn(zLine: array<char>, azCol: array<nat>, ghost line: string, nSep: nat, nCol: nat,
                   i: nat, z: nat, ghost columns: seq<string>, ghost start: nat)
    returns (i': nat, z': nat)
    requires 0 < nSep && z + nSep <= |line| && Holding(zLine, azCol, line, nCol, columns, i, start, z)
    modifies zLine, azCol
    ensures i' == i + 1 && z' == if i' < nCol then z + nSep else z + 1
    ensures if i < nCol then Holding(zLine, azCol, line, nCol, columns + [line[start..z]], i', z + nSep, z')
            else Holding(zLine, azCol, line, nCol, columns, i', start, z')
  {
    zLine[z] := NUL;
    i', z' := i + 1, z;
    if i' < nCol {
      azCol[i'] := z + nSep;
      z' := z + nSep - 1;
      assert StandsAt(zLine, start, line[start..z]);
    }
    z' := z' + 1;
  }

  /** Ends the last column. */
  method EndLine(zLine: array<char>, azCol: array<nat>, ghost line: string, nCol: nat,
                 i: nat, z: nat, ghost columns: seq<string>, ghost start: nat)
    requires z <= |line| && Holding(zLine, azCol, line, nCol, columns, i, start, z)
    modifies zLine
    ensures i < nCol ==> forall k | 0 <= k <= i :: StandsAt(zLine, azCol[k], (columns + [line[start..z]])[k])
  {
    zLine[z] := NUL;
    if i < nCol {
      assert StandsAt(zLine, start, line[start..z]);
    }
  }

  /** All that the loop of the splitter keeps. */
  ghost predicate InSplit(zLine: array<char>, azCol: array<nat>, line: string, sep: string, nCol: nat,
                          columns: seq<string>, i: nat, start: nat, z: nat)
    requires sep != ""
    reads zLine, azCol
  {
    && Holding(zLine, azCol, line, nCol, columns, i, start, z)
    && z <= |line| && Splitting(line, sep, nCol, columns, i, start, z)
  }

  /** What the loop does at a separator. */
  method TakeSeparator(zLine: array<char>, azCol: array<nat>, ghost line: string, sep: string, nCol: nat,
                       i: nat, z: nat, ghost columns: seq<string>, ghost start: nat)
    returns (i': nat, z': nat, ghost columns': seq<string>, ghost start': nat)
    requires sep != "" && InSplit(zLine, azCol, line, sep, nCol, columns, i, start, z)
    requires !LineStops(line, z) && At(line, z, sep)
    modifies zLine, azCol
    ensures InSplit(zLine, azCol, line, sep, nCol, columns', i', start', z') && z < z'
  {
    columns', start' := columns, start;
    if i < nCol {
      SplitAtSep(line, sep, nCol, columns, i, start, z);
      columns', start' := columns + [line[start..z]], z + |sep|;
    }
    i', z' := CutColumn(zLine, azCol, line, |sep|, nCol, i, z, columns, start);
  }

  /** Splits a line in place; `azCol` receives where each column begins.  Exactly
      when the line has as many columns as the table, `i + 1` is their number. */
  method SplitLine(zLine: array<char>, ghost line: string, sep: string, azCol: array<nat>, nCol: nat) returns (i: nat)
    requires StandsAt(zLine, 0, line) && NUL !in line && sep != "" && NUL !in sep
    requires nCol > 0 && azCol.Length == nCol + 1
    modifies zLine, azCol
    ensures if |Columns(line, sep)| <= nCol then i + 1 == |Columns(line, sep)| else i + 1 > nCol
    ensures i + 1 == nCol ==> forall k | 0 <= k < nCol :: StandsAt(zLine, azCol[k], Columns(line, sep)[k])
  {
    azCol[0] := 0;
    i := 0;
    var z: nat := 0;
    ghost var columns: seq<string>, start: nat := [], 0;
    while zLine[z] != NUL && zLine[z] != '\n' && zLine[z] != '\r'
      invariant InSplit(zLine, azCol, line, sep, nCol, columns, i, start, z)
      decreases |line| - z
    {
      assert zLine[z] == line[z];
      var found := Matches(zLine, z, sep, line);
      if found {
        i, z, columns, start := TakeSeparator(zLine, azCol, line, sep, nCol, i, z, columns, start);
      } else {
        z := z + 1;
      }
    }
    EndLine(zLine, azCol, line, nCol, i, z, columns, start);
  }

  // ------------------------------------------------------------------ import

  type Values = seq<string>

  /** Whether the database takes a row into a table; sqlite itself is not modelled. */
  type Accepts = (seq<Values>, Values) -> bool

  /** The columns of each line. */
  function RowsOf(lines: seq<string>, sep: string): seq<Values>
    requires sep != ""
  {
    if lines == [] then [] else [Columns(lines[0], sep)] + RowsOf(lines[1..], sep)
  }

  ghost predicate AllWide(rows: seq<Values>, nCol: nat) {
    forall k | 0 <= k < |rows| :: |rows[k]| == nCol
  }

  /** The database takes the rows one after the other. */
  predicate Taken(accepts: Accepts, have: seq<Values>, rows: seq<Values>)
    decreases |rows|
  {
    rows == [] || (accepts(have, rows[0]) && Taken(accepts, have + [rows[0]], rows[1..]))
  }

  /** The table after the lines from `i` on have been added to `rows`, none if a line
      has the wrong number of columns or is not accepted. */
  function Loaded(t: string, i: nat, sep: string, nCol: nat, accepts: Accepts, rows: seq<Values>): Option<seq<Values>>
    requires i <= |t| && sep != ""
    decreases |t| - i
  {
    if i == |t| then Some(rows)
    else
      var columns := Columns(LineAt(t, i), sep);
      if |columns| != nCol || !accepts(rows, columns) then None
      else Loaded(t, NextLine(t, i), sep, nCol, accepts, rows + [columns])
  }

  lemma RowsOfCons(line: string, lines: seq<string>, sep: string)
    requires sep != ""
    ensures RowsOf([line] + lines, sep) == [Columns(line, sep)] + RowsOf(lines, sep)
  {
    assert ([line] + lines)[1..] == lines;
  }

  lemma WideCons(row: Values, rows: seq<Values>, nCol: nat)
    ensures AllWide([row] + rows, nCol) <==> |row| == nCol && AllWide(rows, nCol)
  {
    assert ([row] + rows)[0] == row;
    assert forall k | 0 <= k < |rows| :: ([row] + rows)[k + 1] == rows[k];
  }

  lemma TakenCons(accepts: Accepts, have: seq<Values>, row: Values, rows: seq<Values>)
    ensures Taken(accepts, have, [row] + rows) <==> accepts(have, row) && Taken(accepts, have + [row], rows)
  {
    assert ([row] + rows)[1..] == rows;
  }

  /** The rows of a file, added to what the table had if all are of the right width and
      taken. */
  ghost function AllOrNone(rows: seq<Values>, nCol: nat, accepts: Accepts, have: seq<Values>): Option<seq<Values>> {
    if AllWide(rows, nCol) && Taken(accepts, have, rows) then Some(have + rows) else None
  }

  lemma OneMoreRow(row: Values, rows: seq<Values>, nCol: nat, accepts: Accepts, have: seq<Values>)
    ensures AllOrNone([row] + rows, nCol, accepts, have)
         == if |row| != nCol || !accepts(have, row) then None else AllOrNone(rows, nCol, accepts, have + [row])
  {
    WideCons(row, rows, nCol);
    TakenCons(accepts, have, row, rows);
    assert have + ([row] + rows) == have + [row] + rows;
  }

  /** Loading a file adds the columns of all its lines in order, or fails as a whole:
      exactly if a line has the wrong number of columns or a row is refused. */
  lemma {:induction false} LoadedIff(t: string, i: nat, sep: string, nCol: nat, accepts: Accepts, have: seq<Values>)
    requires i <= |t| && sep != ""
    ensures Loaded(t, i, sep, nCol, accepts, have) == AllOrNone(RowsOf(FileLines(t, i), sep), nCol, accepts, have)
    decreases |t| - i
  {
    if i == |t| {
      assert have + [] == have;
    } else {
      var line, rest := LineAt(t, i), FileLines(t, NextLine(t, i));
      RowsOfCons(line, rest, sep);
      OneMoreRow(Columns(line, sep), RowsOf(rest, sep), nCol, accepts, have);
      LoadedIff(t, NextLine(t, i), sep, nCol, accepts, have + [Columns(line, sep)]);
    }
  }

  /** A table in a database and its state at the last BEGIN. */
  class Table {
    const nCol: nat
    const accepts: Accepts
    var rows: seq<Values>
    var saved: seq<Values>

    constructor (nCol: nat, accepts: Accepts, rows: seq<Values>)
      ensures this.nCol == nCol && this.accepts == accepts && this.rows == rows
    {
      this.nCol, this.accepts, this.rows, saved := nCol, accepts, rows, [];
    }

    method Begin()
      modifies this`saved
      ensures saved == rows
    {
      saved := rows;
    }

    method Insert(row: Values) returns (ok: bool)
      modifies this`rows
      ensures ok == accepts(old(rows), row)
      ensures rows == if ok then old(rows) + [row] else old(rows)
    {
      ok := accepts(rows, row);
      if ok {
        rows := rows + [row];
      }
    }

    method Rollback()
      modifies this`rows
      ensures rows == saved
    {
      rows := saved;
    }
  }

  ghost predicate WithoutNul(columns: Values) {
    forall k | 0 <= k < |columns| :: NUL !in columns[k]
  }

  lemma {:induction false} FieldsWithoutNul(line: string, start: nat, z: nat, sep: string)
    requires start <= z <= |line| && sep != "" && NUL !in line
    ensures WithoutNul(Fields(line, start, z, sep))
    decreases |line| - z
  {
    assert NUL !in line[start..z];
    if LineStops(line, z) {
    } else {
      if At(line, z, sep) {
        FieldsWithoutNul(line, z + |sep|, z + |sep|, sep);
      } else {
        FieldsWithoutNul(line, start, z + 1, sep);
      }
    }
  }

  /** The values bound to the INSERT statement. */
  method Bound(zLine: array<char>, azCol: array<nat>, nCol: nat, ghost columns: Values) returns (row: Values)
    requires nCol == |columns| < azCol.Length && WithoutNul(columns)
    requires forall k | 0 <= k < |columns| :: StandsAt(zLine, azCol[k], columns[k])
    ensures row == columns
  {
    row := [];
    for i := 0 to nCol
      invariant |row| == i && row == columns[..i]
    {
      var v := StringAt(zLine, azCol[i], columns[i]);
      row := row + [v];
    }
    assert columns[..nCol] == columns;
  }

  /** What has been added since BEGIN: whole rows, and without NUL bytes in the text
      exactly the lines read so far. */
  ghost predicate Loading(t: string, start: nat, pos: nat, sep: string, table: Table,
                          before: seq<Values>, added: seq<Values>)
    requires start <= pos <= |t| && sep != ""
    reads table
  {
    && table.saved == before
    && table.rows == before + added && AllWide(added, table.nCol)
    && (NUL !in t ==>
          Loaded(t, start, sep, table.nCol, table.accepts, before)
          == Loaded(t, pos, sep, table.nCol, table.accepts, table.rows))
  }

  /** One line of the file: false if the import must be rolled back. */
  method ImportLine(table: Table, zLine: array<char>, ghost line: string, separator: string, azCol: array<nat>)
    returns (ok: bool)
    requires separator != "" && NUL !in separator && table.nCol > 0 && azCol.Length == table.nCol + 1
    requires StandsAt(zLine, 0, line) && NUL !in line
    modifies table`rows, zLine, azCol
    ensures ok == (|Columns(line, separator)| == table.nCol && table.accepts(old(table.rows), Columns(line, separator)))
    ensures table.rows == if ok then old(table.rows) + [Columns(line, separator)] else old(table.rows)
  {
    var i := SplitLine(zLine, line, separator, azCol, table.nCol);
    if i + 1 != table.nCol {
      return false;
    }
    ghost var columns := Columns(line, separator);
    FieldsWithoutNul(line, 0, 0, separator);
    var row := Bound(zLine, azCol, table.nCol, columns);
    ok := table.Insert(row);
  }

  /** The transaction of `.import`: the lines are added one by one until one fails. */
  method ImportLines(input: Input, table: Table, separator: string, unit: nat)
    requires input.pos <= |input.text| && unit >= 2 && NUL !in separator
    modifies input, table
    ensures separator == "" || table.nCol == 0 ==> table.rows == old(table.rows)
    ensures exists added: seq<Values> :: table.rows == old(table.rows) + added && AllWide(added, table.nCol)
    ensures separator != "" && table.nCol > 0 && NUL !in input.text ==>
      table.rows == match Loaded(input.text, old(input.pos), separator, table.nCol, table.accepts, old(table.rows))
                    case Some(rows) => rows
                    case None => old(table.rows)
  {
    ghost var before, added: seq<Values> := table.rows, [];
    assert table.rows == before + added;
    if separator == "" || table.nCol == 0 {
      return;
    }
    var azCol := new nat[table.nCol + 1](_ => 0);
    table.Begin();
    ghost var t, start := input.text, input.pos;
    var line, text := LocalGetline(input, unit);
    ghost var at := start;
    while line != null
      invariant start <= at <= input.pos <= |t|
      invariant Loading(t, start, at, separator, table, before, added)
      invariant fresh(azCol) && azCol.Length == table.nCol + 1
      invariant line != null ==> fresh(line) && NUL !in text && StandsAt(line, 0, text) && at < input.pos
      invariant NUL !in t && line == null ==> at == |t|
      invariant NUL !in t && line != null ==> at < |t| && text == LineAt(t, at) && input.pos == NextLine(t, at)
      decreases |t| - at
    {
      var ok := ImportLine(table, line, text, separator, azCol);
      if !ok {
        table.Rollback();
        assert table.rows == before + [];
        return;
      }
      ghost var row := Columns(text, separator);
      assert before + (added + [row]) == before + added + [row];
      added := added + [row];
      at := input.pos;
      line, text := LocalGetline(input, unit);
    }
  }

  /** `.import`: all lines of the file become rows in order if every one has as many
      columns as the table and every row is taken; otherwise the table stays as it was. */
  method ImportFile(input: Input, table: Table, separator: string, unit: nat)
    requires input.pos <= |input.text| && unit >= 2 && NUL !in separator
    modifies input, table
    ensures separator == "" || table.nCol == 0 ==> table.rows == old(table.rows)
    ensures exists added: seq<Values> :: table.rows == old(table.rows) + added && AllWide(added, table.nCol)
    ensures separator != "" && table.nCol > 0 && NUL !in input.text ==>
      var rows := RowsOf(FileLines(input.text, old(input.pos)), separator);
      table.rows == if AllWide(rows, table.nCol) && Taken(table.accepts, old(table.rows), rows)
                    then old(table.rows) + rows else old(table.rows)
  {
    if separator != "" {
      LoadedIff(input.text, input.pos, separator, table.nCol, table.accepts, table.rows);
    }
    ImportLines(input, table, separator, unit);
  }
}
