/** When a table survives the trip through list output and `.import` of the sqlite
    shell (sqlite/shell.c). */
module ShellRoundTrip {
  import opened CText
  import opened ShellImport
  import opened ShellTypes
  import opened TextLines
  import opened Wrappers

  // ---------------------------------------------------------- what can come back

  predicate HasNoLineEnd(v: string) {
    forall k | 0 <= k < |v| :: v[k] != '\n' && v[k] != '\r'
  }

  /** The value and what is printed behind it, short of the next value. */
  function WithMark(v: string, sep: string, last: bool): string {
    if last then v else v + sep
  }

  /** No separator begins inside the value, not even one that the separator behind the
      value completes; the last value of a row has none behind it. */
  predicate Tight(v: string, sep: string, last: bool) {
    HasNoLineEnd(v) && forall p | 0 <= p < |v| :: !At(WithMark(v, sep, last), p, sep)
  }

  predicate AllTight(values: Values, sep: string) {
    forall k | 0 <= k < |values| :: Tight(values[k], sep, k + 1 == |values|)
  }

  ghost predicate TightTable(rows: seq<Values>, sep: string) {
    forall k | 0 <= k < |rows| :: AllTight(rows[k], sep)
  }

  /** The splitter can meet the separator on a line. */
  predicate Separator(sep: string) {
    sep != "" && sep[0] != '\r' && forall k | 0 <= k < |sep| :: sep[k] != '\n'
  }

  /** A single column needs no separator. */
  predicate Separates(sep: string, nCol: nat) {
    sep != "" && (nCol == 1 || Separator(sep))
  }

  // ------------------------------------------------------- from rows to the line

  lemma {:induction false} SkipValue(line: string, start: nat, z: nat, end: nat, sep: string)
    requires start <= z <= end <= |line| && sep != ""
    requires forall j | z <= j < end :: !LineStops(line, j) && !At(line, j, sep)
    ensures Fields(line, start, z, sep) == Fields(line, start, end, sep)
    decreases end - z
  {
    if z == end {
    } else {
      SkipValue(line, start, z + 1, end, sep);
    }
  }

  /** A row without its line end. */
  function Body(values: Values, sep: string): string {
    ListRow(values, sep, "")
  }

  lemma {:induction false} BodyAndEnd(values: Values, sep: string, eol: string)
    requires values != []
    ensures ListRow(values, sep, eol) == Body(values, sep) + eol
  {
    if |values| == 1 {
      assert values[1..] == [];
      assert eol + ListRow(values[1..], sep, eol) == eol;
      assert "" + ListRow(values[1..], sep, "") == "";
    } else {
      BodyAndEnd(values[1..], sep, eol);
      AppendAssoc(sep, Body(values[1..], sep), eol);
      AppendAssoc(values[0], sep + Body(values[1..], sep), eol);
    }
  }

  /** In semicolon mode a row is what it is in list mode, with a semicolon behind it. */
  lemma SemiRow(values: Values, sep: string)
    requires values != []
    ensures exists body: string ::
      ListRow(values, sep, RowEnd(ListMode)) == body + "\n" && ListRow(values, sep, RowEnd(SemiMode)) == body + ";" + "\n"
  {
    BodyAndEnd(values, sep, "\n");
    BodyAndEnd(values, sep, ";\n");
    AppendAssoc(Body(values, sep), ";", "\n");
  }

  lemma TightRest(values: Values, sep: string)
    requires values != [] && AllTight(values, sep)
    ensures Tight(values[0], sep, |values| == 1) && AllTight(values[1..], sep)
  {
    forall k | 0 <= k < |values| - 1
      ensures Tight(values[1..][k], sep, k + 1 == |values| - 1)
    {
      assert Tight(values[k + 1], sep, k + 2 == |values|);
    }
  }

  lemma {:induction false} BodyHasNoNewline(values: Values, sep: string)
    requires AllTight(values, sep) && (|values| > 1 ==> Separator(sep))
    ensures '\n' !in Body(values, sep)
  {
    if values == [] {
    } else {
      TightRest(values, sep);
      BodyHasNoNewline(values[1..], sep);
    }
  }

  /** What stands in a part of the line stands in the line. */
  lemma AtInside(line: string, z: nat, text: string, p: nat, sep: string)
    requires At(line, z, text) && p + |sep| <= |text|
    ensures At(line, z + p, sep) <==> At(text, p, sep)
  {
    forall k | 0 <= k < |sep|
      ensures line[z + p + k] == sep[k] <==> text[p + k] == sep[k]
    {
      assert line[z + (p + k)] == text[p + k];
    }
  }

  /** The scan meets nothing inside the value that stands at `z`. */
  lemma ValueIsSkipped(line: string, z: nat, v: string, sep: string, last: bool, j: nat)
    requires sep != "" && Tight(v, sep, last) && z <= j < z + |v|
    requires At(line, z, WithMark(v, sep, last)) && (last ==> z + |v| == |line|)
    ensures j < |line| && !LineStops(line, j) && !At(line, j, sep)
  {
    var text := WithMark(v, sep, last);
    assert line[z + (j - z)] == text[j - z] == v[j - z];
    if j - z + |sep| <= |text| {
      AtInside(line, z, text, j - z, sep);
    }
  }

  /** From index `z` on the line is the printed values. */
  ghost predicate EndsWith(line: string, z: nat, values: Values, sep: string) {
    && values != [] && Separates(sep, |values|) && AllTight(values, sep)
    && At(line, z, Body(values, sep)) && z + |Body(values, sep)| == |line|
  }

  /** The line at the first value: behind it the line ends, or a separator and the
      other values follow. */
  lemma FirstValue(line: string, z: nat, values: Values, sep: string)
    requires EndsWith(line, z, values, sep)
    ensures var end := z + |values[0]|;
      && end <= |line| && line[z..end] == values[0]
      && if |values| == 1 then end == |line| && At(line, z, values[0])
         else At(line, z, values[0] + sep) && At(line, end, sep) && !LineStops(line, end)
              && EndsWith(line, end + |sep|, values[1..], sep)
  {
    var v, rest := values[0], Body(values[1..], sep);
    TightRest(values, sep);
    if |values| == 1 {
      assert Body(values, sep) == v by {
        assert values[1..] == [];
        assert "" + "" == "";
      }
    } else {
      AppendAssoc(v, sep, rest);
      AtConcat(line, z, v + sep, rest);
      AtConcat(line, z, v, sep);
      AtHead(line, z + |v|, sep);
    }
  }

  lemma FieldsStop(line: string, start: nat, z: nat, sep: string)
    requires start <= z <= |line| && sep != "" && LineStops(line, z)
    ensures Fields(line, start, z, sep) == [line[start..z]]
  {
  }

  lemma FieldsCut(line: string, start: nat, z: nat, sep: string)
    requires start <= z <= |line| && sep != "" && !LineStops(line, z) && At(line, z, sep)
    ensures Fields(line, start, z, sep) == [line[start..z]] + Fields(line, z + |sep|, z + |sep|, sep)
  {
  }

  /** The scan goes straight to the end of the first value. */
  lemma FirstSkipped(line: string, z: nat, values: Values, sep: string)
    requires EndsWith(line, z, values, sep)
    ensures var end := z + |values[0]|; end <= |line| && Fields(line, z, z, sep) == Fields(line, z, end, sep)
  {
    var end := z + |values[0]|;
    FirstValue(line, z, values, sep);
    TightRest(values, sep);
    forall j | z <= j < end
      ensures !LineStops(line, j) && !At(line, j, sep)
    {
      ValueIsSkipped(line, z, values[0], sep, |values| == 1, j);
    }
    SkipValue(line, z, z, end, sep);
  }

  lemma {:induction false} FieldsBack(line: string, z: nat, values: Values, sep: string)
    requires EndsWith(line, z, values, sep)
    ensures z <= |line| && Fields(line, z, z, sep) == values
    decreases |values|
  {
    var end := z + |values[0]|;
    FirstSkipped(line, z, values, sep);
    FirstValue(line, z, values, sep);
    if |values| == 1 {
      FieldsStop(line, z, end, sep);
    } else {
      FieldsCut(line, z, end, sep);
      FieldsBack(line, end + |sep|, values[1..], sep);
    }
    assert values == [values[0]] + values[1..];
  }

  /** A printed row is one line, and its columns are the values. */
  lemma RowBack(t: string, i: nat, values: Values, sep: string)
    requires values != [] && Separates(sep, |values|) && AllTight(values, sep)
    requires At(t, i, ListRow(values, sep, "\n"))
    ensures i < |t| && NextLine(t, i) == i + |ListRow(values, sep, "\n")|
    ensures Columns(LineAt(t, i), sep) == values
  {
    var body := Body(values, sep);
    var end := i + |body|;
    BodyAndEnd(values, sep, "\n");
    BodyHasNoNewline(values, sep);
    AtConcat(t, i, body, "\n");
    AtHead(t, end, "\n");
    forall j | i <= j < end
      ensures t[j] != '\n'
    {
      assert t[i + (j - i)] == body[j - i];
    }
    FindIs(t, i, '\n', end);
    assert LineAt(t, i) == body;
    FieldsBack(body, 0, values, sep);
  }

  // ------------------------------------------------------------- whole tables

  /** From index `i` on the text is the printed rows. */
  ghost predicate Printed(t: string, i: nat, rows: seq<Values>, sep: string, nCol: nat) {
    && nCol > 0 && Separates(sep, nCol) && AllWide(rows, nCol) && TightTable(rows, sep)
    && At(t, i, ListTable(rows, sep)) && i + |ListTable(rows, sep)| == |t|
  }

  lemma RowsParts(t: string, i: nat, rows: seq<Values>, sep: string, nCol: nat)
    requires Printed(t, i, rows, sep, nCol) && rows != []
    ensures var k := i + |ListRow(rows[0], sep, "\n")|;
      && k <= |t| && At(t, i, ListRow(rows[0], sep, "\n")) && Printed(t, k, rows[1..], sep, nCol)
      && |rows[0]| == nCol && AllTight(rows[0], sep)
  {
    AtConcat(t, i, ListRow(rows[0], sep, "\n"), ListTable(rows[1..], sep));
  }

  /** A loading that goes on at `k` after one more row. */
  ghost predicate Continues(t: string, i: nat, rows: seq<Values>, sep: string, nCol: nat, accepts: Accepts,
                            have: seq<Values>, k: nat)
    requires i <= |t| && rows != [] && sep != ""
  {
    && k <= |t| && Printed(t, k, rows[1..], sep, nCol)
    && Loaded(t, i, sep, nCol, accepts, have) == Loaded(t, k, sep, nCol, accepts, have + [rows[0]])
  }

  /** The first printed row becomes the next row of the table. */
  lemma RowLoaded(t: string, i: nat, rows: seq<Values>, sep: string, nCol: nat, accepts: Accepts, have: seq<Values>)
    requires Printed(t, i, rows, sep, nCol) && rows != [] && accepts(have, rows[0])
    ensures exists k: nat :: Continues(t, i, rows, sep, nCol, accepts, have, k)
  {
    RowsParts(t, i, rows, sep, nCol);
    RowBack(t, i, rows[0], sep);
    assert Continues(t, i, rows, sep, nCol, accepts, have, i + |ListRow(rows[0], sep, "\n")|);
  }

  /** All rows printed from index `i` on are loaded. */
  lemma {:induction false} TableBack(t: string, i: nat, rows: seq<Values>, sep: string, nCol: nat, accepts: Accepts,
                                     have: seq<Values>)
    requires Printed(t, i, rows, sep, nCol) && Taken(accepts, have, rows)
    ensures Loaded(t, i, sep, nCol, accepts, have) == Some(have + rows)
    decreases |rows|
  {
    if rows == [] {
      assert have + rows == have;
    } else {
      RowLoaded(t, i, rows, sep, nCol, accepts, have);
      var k: nat :| Continues(t, i, rows, sep, nCol, accepts, have, k);
      TableBack(t, k, rows[1..], sep, nCol, accepts, have + [rows[0]]);
      assert have + [rows[0]] + rows[1..] == have + rows;
    }
  }

  /** Rows printed in list mode come back through `.import`, added to what the table
      had, with any separator that the splitter can meet. */
  lemma TableRoundTrip(rows: seq<Values>, sep: string, nCol: nat, accepts: Accepts, have: seq<Values>)
    requires nCol > 0 && Separates(sep, nCol) && AllWide(rows, nCol) && TightTable(rows, sep)
    requires Taken(accepts, have, rows)
    ensures Loaded(ListTable(rows, sep), 0, sep, nCol, accepts, have) == Some(have + rows)
  {
    TableBack(ListTable(rows, sep), 0, rows, sep, nCol, accepts, have);
  }

  ghost predicate SameTexts(values: Values, row: Row, nullvalue: string) {
    && |values| == |row|
    && forall k | 0 <= k < |row| :: row[k] == (if row[k].Null? then Null else Text(values[k]))
                                     && (row[k].Null? ==> values[k] == nullvalue)
  }

  /** NULL comes back as the null text; all else as it was. */
  lemma NullsComeBackAsText(row: Row, nullvalue: string, sep: string, accepts: Accepts)
    requires row != [] && Separates(sep, |row|) && AllTight(ShownRow(row, nullvalue), sep)
    requires accepts([], ShownRow(row, nullvalue))
    ensures exists values: Values ::
      && SameTexts(values, row, nullvalue)
      && Loaded(ListTable([ShownRow(row, nullvalue)], sep), 0, sep, |row|, accepts, []) == Some([values])
  {
    var values := ShownRow(row, nullvalue);
    assert [values][1..] == [];
    TableRoundTrip([values], sep, |row|, accepts, []);
    assert [] + [values] == [values];
    assert SameTexts(values, row, nullvalue);
  }

  // ----------------------------------------------------- nothing else comes back

  lemma SliceStands(line: string, start: nat, z: nat, mark: string)
    requires start <= z <= |line| && At(line, z, mark)
    ensures At(line, start, line[start..z] + mark)
  {
    var text := line[start..z] + mark;
    forall k | 0 <= k < |text|
      ensures line[start + k] == text[k]
    {
      assert k >= z - start ==> line[z + (k - (z - start))] == mark[k - (z - start)];
    }
  }

  /** Where the scan has met neither a line end nor a separator, the field is tight. */
  lemma ScannedIsTight(line: string, start: nat, z: nat, sep: string, last: bool)
    requires start <= z <= |line| && sep != "" && (!last ==> At(line, z, sep))
    requires forall j | start <= j < z :: !LineStops(line, j) && !At(line, j, sep)
    ensures Tight(line[start..z], sep, last)
  {
    var f := line[start..z];
    SliceStands(line, start, z, if last then "" else sep);
    assert last ==> f + "" == f;
    forall p | 0 <= p < |f|
      ensures f[p] != '\n' && f[p] != '\r' && !At(WithMark(f, sep, last), p, sep)
    {
      assert f[p] == line[start + p] && !LineStops(line, start + p);
      if p + |sep| <= |WithMark(f, sep, last)| {
        AtInside(line, start, WithMark(f, sep, last), p, sep);
      }
    }
  }

  lemma TightCons(f: string, rest: Values, sep: string)
    requires rest != [] && Tight(f, sep, false) && AllTight(rest, sep)
    ensures AllTight([f] + rest, sep)
  {
    forall k | 0 < k < |rest| + 1
      ensures Tight(([f] + rest)[k], sep, k == |rest|)
    {
      assert Tight(rest[k - 1], sep, k == |rest|);
    }
  }

  lemma {:induction false} FieldsAreTight(line: string, start: nat, z: nat, sep: string)
    requires start <= z <= |line| && sep != ""
    requires forall j | start <= j < z :: !LineStops(line, j) && !At(line, j, sep)
    ensures AllTight(Fields(line, start, z, sep), sep)
    decreases |line| - z
  {
    if LineStops(line, z) {
      ScannedIsTight(line, start, z, sep, true);
    } else if At(line, z, sep) {
      var rest := Fields(line, z + |sep|, z + |sep|, sep);
      ScannedIsTight(line, start, z, sep, false);
      FieldsAreTight(line, z + |sep|, z + |sep|, sep);
      FieldsNotEmpty(line, z + |sep|, z + |sep|, sep);
      TightCons(line[start..z], rest, sep);
    } else {
      FieldsAreTight(line, start, z + 1, sep);
    }
  }

  /** The part of a line that is split ends before the first line end. */
  function LineStop(line: string, z: nat): (k: nat)
    requires z <= |line|
    ensures z <= k <= |line|
    decreases |line| - z
  {
    if LineStops(line, z) then z else LineStop(line, z + 1)
  }

  lemma {:induction false} LineStopMeaning(line: string, z: nat)
    requires z <= |line|
    ensures var k := LineStop(line, z);
      && (k < |line| ==> line[k] == '\n' || line[k] == '\r')
      && forall j | z <= j < k :: line[j] != '\n' && line[j] != '\r'
    decreases |line| - z
  {
    if LineStops(line, z) {
    } else {
      LineStopMeaning(line, z + 1);
    }
  }

  /** No line end before `end`. */
  lemma {:induction false} StopShift(line: string, z: nat, end: nat)
    requires z <= end <= |line| && forall j | z <= j < end :: !LineStops(line, j)
    ensures LineStop(line, z) == LineStop(line, end)
    decreases end - z
  {
    if z == end {
    } else {
      StopShift(line, z + 1, end);
    }
  }

  lemma BodyCons(f: string, rest: Values, sep: string)
    requires rest != []
    ensures Body([f] + rest, sep) == f + (sep + Body(rest, sep))
  {
    assert ([f] + rest)[1..] == rest;
  }

  lemma BodyOne(f: string, sep: string)
    ensures Body([f], sep) == f
  {
    assert [f][1..] == [] && Body([f][1..], sep) == "" && "" + "" == "" && f + "" == f;
  }

  /** No line end in the separator that stands at `z`. */
  predicate SepFits(sep: string) {
    sep != "" && forall k | 0 <= k < |sep| :: sep[k] != '\n' && sep[k] != '\r'
  }

  lemma CutPieces(line: string, start: nat, z: nat, end: nat, sep: string)
    requires start <= z && z + |sep| <= end <= |line| && At(line, z, sep)
    ensures line[start..end] == line[start..z] + (sep + line[z + |sep|..end])
  {
    assert line[z..z + |sep|] == sep;
  }

  lemma NoStopInSep(line: string, z: nat, sep: string)
    requires SepFits(sep) && At(line, z, sep)
    ensures LineStop(line, z) == LineStop(line, z + |sep|)
  {
    forall j | z <= j < z + |sep|
      ensures !LineStops(line, j)
    {
      assert line[z + (j - z)] == sep[j - z];
    }
    StopShift(line, z, z + |sep|);
  }

  lemma {:induction false} FieldsJoin(line: string, start: nat, z: nat, sep: string)
    requires start <= z <= |line| && SepFits(sep)
    ensures Body(Fields(line, start, z, sep), sep) == line[start..LineStop(line, z)]
    decreases |line| - z
  {
    if LineStops(line, z) {
      BodyOne(line[start..z], sep);
    } else if At(line, z, sep) {
      var next := z + |sep|;
      FieldsJoin(line, next, next, sep);
      FieldsNotEmpty(line, next, next, sep);
      BodyCons(line[start..z], Fields(line, next, next, sep), sep);
      NoStopInSep(line, z, sep);
      CutPieces(line, start, z, LineStop(line, next), sep);
    } else {
      FieldsJoin(line, start, z + 1, sep);
    }
  }

  /** The columns of a line make up its part before the first line end, with a separator
      between each two, and no separator begins inside a column. */
  lemma {:induction false} ColumnsMeaning(line: string, sep: string)
    requires SepFits(sep)
    ensures var k := LineStop(line, 0);
      && Body(Columns(line, sep), sep) == line[..k] && AllTight(Columns(line, sep), sep)
      && HasNoLineEnd(line[..k]) && (k < |line| ==> line[k] == '\n' || line[k] == '\r')
  {
    LineStopMeaning(line, 0);
    FieldsJoin(line, 0, 0, sep);
    FieldsAreTight(line, 0, 0, sep);
  }

  /** Two fields need a separator that can stand on a line. */
  lemma {:induction false} SeparatorMet(line: string, start: nat, z: nat, sep: string)
    requires start <= z <= |line| && sep != "" && '\n' !in line && |Fields(line, start, z, sep)| > 1
    ensures Separator(sep)
    decreases |line| - z
  {
    if !LineStops(line, z) && At(line, z, sep) {
      AtHead(line, z, sep);
      assert forall k | 0 <= k < |sep| :: sep[k] == line[z + k];
    } else {
      SeparatorMet(line, start, z + 1, sep);
    }
  }

  lemma LineHasNoNewline(t: string, i: nat)
    requires i <= |t|
    ensures '\n' !in LineAt(t, i)
  {
    FindMeaning(t, i, '\n');
  }

  lemma TightSnoc(rows: seq<Values>, row: Values, sep: string)
    requires TightTable(rows, sep) && AllTight(row, sep)
    ensures TightTable(rows + [row], sep)
  {
  }

  lemma TakenFirst(accepts: Accepts, have: seq<Values>, row: Values, all: seq<Values>)
    requires accepts(have, row) && have + [row] <= all && Taken(accepts, have + [row], all[|have| + 1..])
    ensures Taken(accepts, have, all[|have|..])
  {
    assert all[|have|..][0] == row && all[|have|..][1..] == all[|have| + 1..];
  }

  /** Whatever is loaded is tight and has been taken row by row. */
  lemma {:induction false} LoadedIsTight(t: string, i: nat, sep: string, nCol: nat, accepts: Accepts, have: seq<Values>)
    requires i <= |t| && sep != "" && TightTable(have, sep)
    ensures var loaded := Loaded(t, i, sep, nCol, accepts, have);
      loaded.Some? ==> TightTable(loaded.value, sep) && have <= loaded.value
                       && Taken(accepts, have, loaded.value[|have|..])
    decreases |t| - i
  {
    if i == |t| {
    } else {
      var columns := Columns(LineAt(t, i), sep);
      var loaded := Loaded(t, i, sep, nCol, accepts, have);
      FieldsAreTight(LineAt(t, i), 0, 0, sep);
      TightSnoc(have, columns, sep);
      LoadedIsTight(t, NextLine(t, i), sep, nCol, accepts, have + [columns]);
      if loaded.Some? {
        TakenFirst(accepts, have, columns, loaded.value);
      }
    }
  }

  lemma LoadedSeparates(t: string, sep: string, nCol: nat, accepts: Accepts)
    requires sep != "" && nCol > 0
    ensures var loaded := Loaded(t, 0, sep, nCol, accepts, []);
      loaded.Some? && loaded.value != [] ==> Separates(sep, nCol)
  {
    if t != "" && |Columns(LineAt(t, 0), sep)| == nCol > 1 {
      LineHasNoNewline(t, 0);
      SeparatorMet(LineAt(t, 0), 0, 0, sep);
    }
  }

  /** A table printed in list mode comes back through `.import` exactly if no separator
      and no line end begins inside a value, the database takes the rows, and, where
      there is something to separate, the splitter can meet the separator. */
  lemma RoundTripIff(rows: seq<Values>, sep: string, nCol: nat, accepts: Accepts)
    requires sep != "" && nCol > 0 && AllWide(rows, nCol)
    ensures Loaded(ListTable(rows, sep), 0, sep, nCol, accepts, []) == Some(rows) <==>
      TightTable(rows, sep) && Taken(accepts, [], rows) && (rows == [] || Separates(sep, nCol))
  {
    var t := ListTable(rows, sep);
    LoadedIsTight(t, 0, sep, nCol, accepts, []);
    LoadedSeparates(t, sep, nCol, accepts);
    assert rows[0..] == rows;
    if rows != [] && TightTable(rows, sep) && Taken(accepts, [], rows) && Separates(sep, nCol) {
      TableRoundTrip(rows, sep, nCol, accepts, []);
      assert [] + rows == rows;
    }
  }

  /** Nothing in the value is a line end or the byte. */
  predicate Plain(v: string, c: char) {
    HasNoLineEnd(v) && forall k | 0 <= k < |v| :: v[k] != c
  }

  /** Without the first byte of the separator a value is tight; if that is the whole
      separator, only then. */
  lemma PlainIsTight(v: string, sep: string, last: bool)
    requires sep != ""
    ensures Plain(v, sep[0]) ==> Tight(v, sep, last)
    ensures |sep| == 1 && Tight(v, sep, last) ==> Plain(v, sep[0])
  {
    forall p | 0 <= p < |v|
      ensures v[p] != sep[0] ==> !At(WithMark(v, sep, last), p, sep)
      ensures |sep| == 1 && v[p] == sep[0] ==> At(WithMark(v, sep, last), p, sep)
    {
      assert WithMark(v, sep, last)[p] == v[p];
      if At(WithMark(v, sep, last), p, sep) {
        AtHead(WithMark(v, sep, last), p, sep);
      }
    }
    if |sep| == 1 && Tight(v, sep, last) {
      forall p | 0 <= p < |v|
        ensures v[p] != sep[0]
      {
        assert !At(WithMark(v, sep, last), p, sep);
      }
    }
  }
}
