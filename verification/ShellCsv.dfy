/** CSV output of the sqlite shell (sqlite/shell.c) and why it can be read back. */
module ShellCsv {
  import opened CText
  import opened ShellTypes
  import opened Wrappers

  // ----------------------------------------------------------------- writing

  /** The table `needCsvQuote`: controls, blank, both quotes, DEL and all bytes
      above it. */
  predicate NeedsCsvQuote(c: char) {
    c <= ' ' || c == '"' || c == '\'' || c as int >= 127
  }

  /** Does the byte at `i` force quoting?  A longer separator is compared with the
      beginning of the value, not with the text at `i`. */
  predicate Special(z: string, i: nat, sep: string)
    requires i < |z|
  {
    NeedsCsvQuote(z[i]) || (sep != "" && z[i] == sep[0] && (|sep| == 1 || sep <= z))
  }

  predicate IsQuoted(z: string, sep: string) {
    z == "" || exists i: nat :: i < |z| && Special(z, i, sep)
  }

  function CsvText(f: Field, sep: string, nullvalue: string): string {
    match f
    case Null => nullvalue
    case Text(z) => if IsQuoted(z, sep) then Quote('"', z) else z
  }

  /** One byte, a double quote twice. */
  method PutByteDoubled(out: Output, c: char, ghost rest: string)
    modifies out
    ensures out.text + rest == old(out.text) + ((if c == '"' then ['"', '"'] else [c]) + rest)
  {
    AppendAssoc(out.text, if c == '"' then ['"', '"'] else [c], rest);
    if c == '"' {
      out.Put("\"");
    }
    out.Put([c]);
  }

  method PutDoubled(out: Output, z: string)
    modifies out
    ensures out.text == old(out.text) + Quote('"', z)
  {
    ghost var goal := out.text + Quote('"', z);
    out.PutPiece("\"", Doubled(z, '"') + "\"", Quote('"', z));
    assert z[0..] == z;
    for i := 0 to |z|
      invariant out.text + (Doubled(z[i..], '"') + "\"") == goal
    {
      ghost var one := if z[i] == '"' then ['"', '"'] else [z[i]];
      DoubledAt(z, i, '"');
      AppendAssoc(one, Doubled(z[i + 1..], '"'), "\"");
      PutByteDoubled(out, z[i], Doubled(z[i + 1..], '"') + "\"");
    }
    out.Put("\"");
  }

  /** `output_csv`. */
  method OutputCsv(p: CallbackData, f: Field, bSep: bool)
    modifies p.out
    ensures p.out.text == old(p.out.text) + (CsvText(f, p.separator, p.nullvalue) + if bSep then p.separator else "")
  {
    if f.Null? {
      p.out.Put(p.nullvalue);
    } else {
      var z := f.text;
      var i := 0;
      while i < |z|
        invariant 0 <= i <= |z|
        invariant forall k: nat | k < i :: !Special(z, k, p.separator)
      {
        if Special(z, i, p.separator) {
          assert IsQuoted(z, p.separator);
          i := 0;
          break;
        }
        i := i + 1;
      }
      if i == 0 {
        assert IsQuoted(z, p.separator);
        PutDoubled(p.out, z);
      } else {
        p.out.Put(z);
      }
    }
    if bSep {
      p.out.Put(p.separator);
    }
  }

  function CsvRow(row: Row, sep: string, nullvalue: string): string {
    if row == [] then "\n"
    else (CsvText(row[0], sep, nullvalue) + if |row| > 1 then sep else "") + CsvRow(row[1..], sep, nullvalue)
  }

  /** What column `i` of a row adds to the line. */
  function CsvPart(row: Row, i: nat, sep: string, nullvalue: string): string
    requires i < |row|
  {
    CsvText(row[i], sep, nullvalue) + if i < |row| - 1 then sep else ""
  }

  lemma CsvRowAt(row: Row, i: nat, sep: string, nullvalue: string, done: string)
    requires i < |row|
    ensures done + CsvRow(row[i..], sep, nullvalue)
         == (done + CsvPart(row, i, sep, nullvalue)) + CsvRow(row[i + 1..], sep, nullvalue)
  {
    assert row[i..][1..] == row[i + 1..];
    AppendAssoc(done, CsvPart(row, i, sep, nullvalue), CsvRow(row[i + 1..], sep, nullvalue));
  }

  method PutRow(p: CallbackData, row: Row)
    modifies p.out
    ensures p.out.text == old(p.out.text) + CsvRow(row, p.separator, p.nullvalue)
  {
    ghost var goal := p.out.text + CsvRow(row, p.separator, p.nullvalue);
    assert row[0..] == row;
    for i := 0 to |row|
      invariant p.out.text + CsvRow(row[i..], p.separator, p.nullvalue) == goal
    {
      CsvRowAt(row, i, p.separator, p.nullvalue, p.out.text);
      OutputCsv(p, row[i], i < |row| - 1);
    }
    p.out.Put("\n");
    assert row[|row|..] == [];
  }

  /** Column names as texts; a missing one counts as empty. */
  function Named(azCol: Row): Row {
    seq(|azCol|, k requires 0 <= k < |azCol| => if azCol[k].Null? then Text("") else azCol[k])
  }

  /** `callback` in CSV mode: a line of column names before the first row, if wanted,
      and the row, if there is one. */
  method CallbackCsv(p: CallbackData, azArg: Option<Row>, azCol: Row)
    modifies p.out, p`cnt
    ensures p.cnt == old(p.cnt) + 1
    ensures p.out.text == old(p.out.text)
              + (if old(p.cnt) == 0 && p.showHeader then CsvRow(Named(azCol), p.separator, p.nullvalue) else "")
              + (if azArg.Some? then CsvRow(azArg.value, p.separator, p.nullvalue) else "")
  {
    ghost var start := p.out.text;
    p.cnt := p.cnt + 1;
    if p.cnt == 1 && p.showHeader {
      PutRow(p, Named(azCol));
    }
    assert p.out.text == start
      + if old(p.cnt) == 0 && p.showHeader then CsvRow(Named(azCol), p.separator, p.nullvalue) else "";
    if azArg.Some? {
      PutRow(p, azArg.value);
    }
  }

  function CsvTable(rows: seq<Row>, sep: string, nullvalue: string): string {
    if rows == [] then "" else CsvRow(rows[0], sep, nullvalue) + CsvTable(rows[1..], sep, nullvalue)
  }

  /** Bytes that never force quoting: those that can be seen, but for the two quotes. */
  predicate Harmless(c: char) {
    '!' <= c <= '~' && c != '"' && c != '\''
  }

  lemma HarmlessIff(c: char)
    ensures Harmless(c) <==> !NeedsCsvQuote(c)
  {
  }

  /** A value is quoted exactly if it is empty, has a byte that is not harmless, has the
      separator in it if that is one byte, or begins with it if it is longer. */
  lemma QuotedIff(z: string, sep: string)
    ensures IsQuoted(z, sep) <==>
      || z == ""
      || (exists i: nat :: i < |z| && !Harmless(z[i]))
      || (if |sep| == 1 then sep[0] in z else sep != "" && sep <= z)
  {
    forall i: nat | i < |z|
      ensures Harmless(z[i]) <==> !NeedsCsvQuote(z[i])
    {
      HarmlessIff(z[i]);
    }
    if |sep| > 1 && sep <= z {
      assert Special(z, 0, sep);
    }
    if |sep| == 1 && sep[0] in z {
      var i: nat :| i < |z| && z[i] == sep[0];
      assert Special(z, i, sep);
    }
    if z != "" && exists i: nat :: i < |z| && !Harmless(z[i]) {
      var i: nat :| i < |z| && !Harmless(z[i]);
      assert Special(z, i, sep);
    }
  }

  lemma LastCsv(f: Field, sep: string, nullvalue: string)
    ensures CsvRow([f], sep, nullvalue) == CsvText(f, sep, nullvalue) + "\n"
  {
    assert [f][1..] == [];
    assert CsvRow([f][1..], sep, nullvalue) == "\n";
    assert CsvText(f, sep, nullvalue) + "" == CsvText(f, sep, nullvalue);
  }

  /** With a separator of several harmless bytes, two values are confused with one that
      has the separator in it: it is found only at the beginning of a value. */
  lemma LongSeparatorConfuses(sep: string, nullvalue: string, c: char)
    requires |sep| > 1 && (forall k | 0 <= k < |sep| :: Harmless(sep[k])) && Harmless(c) && c != sep[0]
    ensures CsvRow([Text([c]), Text([c])], sep, nullvalue) == CsvRow([Text([c] + sep + [c])], sep, nullvalue)
  {
    var one := [c] + sep + [c];
    assert [c][0] == c && one[0] == c;
    QuotedIff([c], sep);
    QuotedIff(one, sep);
    LastCsv(Text([c]), sep, nullvalue);
    LastCsv(Text(one), sep, nullvalue);
    assert [Text([c]), Text([c])][1..] == [Text([c])];
    AppendAssoc([c] + sep, [c], "\n");
  }

  // ----------------------------------------------------------------- reading

  /** Where an unquoted field that begins at `i` ends. */
  function FieldEnd(t: string, i: nat, sep: char): (k: nat)
    requires i <= |t|
    ensures i <= k <= |t|
    decreases |t| - i
  {
    if i == |t| || t[i] == sep || t[i] == '\n' then i else FieldEnd(t, i + 1, sep)
  }

  /** A one-byte separator and the text for NULL. */
  datatype Style = Style(sep: char, nullvalue: string)

  function FieldText(f: Field, st: Style): string {
    CsvText(f, [st.sep], st.nullvalue)
  }

  function RowText(row: Row, st: Style): string {
    CsvRow(row, [st.sep], st.nullvalue)
  }

  function TableText(rows: seq<Row>, st: Style): string {
    CsvTable(rows, [st.sep], st.nullvalue)
  }

  /** One field by the rules of section 2 of RFC 4180; without quotes the null text
      is NULL.  A quote that is never closed takes the rest of the text. */
  function ReadField(t: string, i: nat, st: Style): (r: (Field, nat))
    requires i <= |t|
    ensures i <= r.1 <= |t|
  {
    if i < |t| && t[i] == '"' then
      match Unquoted(t, i + 1, '"')
      case Some(q) => (Text(q.0), q.1)
      case None => (Text(t[i + 1..]), |t|)
    else
      var k := FieldEnd(t, i, st.sep);
      (if t[i..k] == st.nullvalue then Null else Text(t[i..k]), k)
  }

  function ReadRow(t: string, i: nat, st: Style): (r: (Row, nat))
    requires i <= |t|
    ensures i <= r.1 <= |t| && (i < |t| ==> i < r.1)
    decreases |t| - i, 1
  {
    RowFrom(t, ReadField(t, i, st), st)
  }

  /** The row whose first field has just been read, up to its index. */
  function RowFrom(t: string, first: (Field, nat), st: Style): (r: (Row, nat))
    requires first.1 <= |t|
    ensures first.1 <= r.1 <= |t| && (first.1 < |t| ==> first.1 < r.1)
    decreases |t| - first.1, 0
  {
    var k := first.1;
    if k < |t| && t[k] == st.sep then
      var rest := ReadRow(t, k + 1, st);
      ([first.0] + rest.0, rest.1)
    else ([first.0], if k < |t| then k + 1 else k)
  }

  function ReadTable(t: string, i: nat, st: Style): seq<Row>
    requires i <= |t|
    decreases |t| - i
  {
    if i == |t| then []
    else
      var (row, k) := ReadRow(t, i, st);
      [row] + ReadTable(t, k, st)
  }

  // -------------------------------------------------------------- round trip

  predicate Separating(sep: char) {
    sep != '"' && sep != '\n'
  }

  /** The text has nothing in it that ends or quotes a field. */
  predicate CleanFor(z: string, sep: char) {
    forall k: nat | k < |z| :: z[k] != '"' && z[k] != sep && z[k] != '\n'
  }

  /** NULL is not taken for a text: the null text as a value would be quoted. */
  predicate Readable(st: Style) {
    Separating(st.sep) && CleanFor(st.nullvalue, st.sep) && IsQuoted(st.nullvalue, [st.sep])
  }

  lemma {:induction false} FieldEndIs(t: string, i: nat, sep: char, k: nat)
    requires i <= k < |t| && (t[k] == sep || t[k] == '\n')
    requires forall j | i <= j < k :: t[j] != sep && t[j] != '\n'
    ensures FieldEnd(t, i, sep) == k
    decreases k - i
  {
    if i == k {
    } else {
      FieldEndIs(t, i + 1, sep, k);
    }
  }

  lemma PlainText(z: string, sep: char)
    requires !IsQuoted(z, [sep])
    ensures z != "" && CleanFor(z, sep)
  {
    forall k: nat | k < |z|
      ensures z[k] != '"' && z[k] != sep && z[k] != '\n'
    {
      assert !Special(z, k, [sep]);
    }
  }

  /** A text without quote, separator and newline is read as it stands. */
  lemma UnquotedBack(t: string, i: nat, z: string, st: Style)
    requires Separating(st.sep) && CleanFor(z, st.sep) && At(t, i, z)
    requires var k := i + |z|; k < |t| && (t[k] == st.sep || t[k] == '\n')
    ensures ReadField(t, i, st) == (if z == st.nullvalue then Null else Text(z), i + |z|)
  {
    forall j | i <= j < i + |z|
      ensures t[j] != st.sep && t[j] != '\n' && t[j] != '"'
    {
      assert t[i + (j - i)] == z[j - i];
    }
    FieldEndIs(t, i, st.sep, i + |z|);
    assert t[i..i + |z|] == z;
  }

  /** A printed field followed by the separator or a line end is read back. */
  lemma FieldBack(t: string, i: nat, f: Field, st: Style)
    requires Readable(st)
    requires At(t, i, FieldText(f, st))
    requires var k := i + |FieldText(f, st)|; k < |t| && (t[k] == st.sep || t[k] == '\n')
    ensures ReadField(t, i, st) == (f, i + |FieldText(f, st)|)
  {
    match f
    case Null => UnquotedBack(t, i, st.nullvalue, st);
    case Text(z) =>
      if IsQuoted(z, [st.sep]) {
        QuoteBack(t, i, z, '"');
      } else {
        PlainText(z, st.sep);
        UnquotedBack(t, i, z, st);
      }
  }

  lemma FieldThenMore(t: string, i: nat, text: string, sep: char, rest: string)
    requires At(t, i, (text + [sep]) + rest)
    ensures var k := i + |text|; At(t, i, text) && k < |t| && t[k] == sep && At(t, k + 1, rest)
  {
    AtThree(t, i, text, [sep], rest);
    AtHead(t, i + |text|, [sep]);
  }

  lemma FieldThenEnd(t: string, i: nat, text: string)
    requires At(t, i, (text + "") + "\n")
    ensures var k := i + |text|; At(t, i, text) && k < |t| && t[k] == '\n'
  {
    AtThree(t, i, text, "", "\n");
    AtHead(t, i + |text|, "\n");
  }

  /** The first field of a printed row and what comes behind it. */
  lemma RowParts(t: string, i: nat, row: Row, st: Style)
    requires row != [] && At(t, i, RowText(row, st))
    ensures var text := FieldText(row[0], st);
      var k := i + |text|;
      && At(t, i, text) && k < |t|
      && if |row| > 1
         then t[k] == st.sep && At(t, k + 1, RowText(row[1..], st))
         else t[k] == '\n'
  {
    var text, rest := FieldText(row[0], st), RowText(row[1..], st);
    if |row| > 1 {
      FieldThenMore(t, i, text, st.sep, rest);
    } else {
      assert rest == "\n";
      FieldThenEnd(t, i, text);
    }
  }

  /** At `i` the reader finds the row, up to the end of its text. */
  ghost predicate RowReads(t: string, i: nat, row: Row, st: Style) {
    i < |t| && ReadRow(t, i, st) == (row, i + |RowText(row, st)|)
  }

  /** The first field of a printed row is read, up to the byte behind it. */
  lemma FieldRead(t: string, i: nat, row: Row, st: Style)
    requires Readable(st) && row != [] && At(t, i, RowText(row, st))
    ensures var k := i + |FieldText(row[0], st)|;
      && k < |t| && t[k] == (if |row| > 1 then st.sep else '\n')
      && ReadRow(t, i, st) == RowFrom(t, (row[0], k), st)
  {
    RowParts(t, i, row, st);
    FieldBack(t, i, row[0], st);
  }

  lemma RowLength(row: Row, st: Style)
    requires row != []
    ensures |RowText(row, st)| == |FieldText(row[0], st)| + 1 + if |row| > 1 then |RowText(row[1..], st)| else 0
  {
    if |row| == 1 {
      assert row[1..] == [];
      assert CsvRow(row[1..], [st.sep], st.nullvalue) == "\n";
    }
  }

  /** The last field of a row. */
  lemma LastRead(t: string, i: nat, row: Row, st: Style)
    requires Readable(st) && |row| == 1 && At(t, i, RowText(row, st))
    ensures RowReads(t, i, row, st)
  {
    FieldRead(t, i, row, st);
    RowLength(row, st);
    assert row == [row[0]];
  }

  /** A field with others behind it. */
  lemma FirstRead(t: string, i: nat, row: Row, st: Style)
    requires Readable(st) && |row| > 1 && At(t, i, RowText(row, st))
    requires RowReads(t, i + |FieldText(row[0], st)| + 1, row[1..], st)
    ensures RowReads(t, i, row, st)
  {
    FieldRead(t, i, row, st);
    RowLength(row, st);
    assert row == [row[0]] + row[1..];
  }

  lemma {:induction false} RowBack(t: string, i: nat, row: Row, st: Style)
    requires Readable(st) && row != [] && At(t, i, RowText(row, st))
    ensures RowReads(t, i, row, st)
    decreases |row|
  {
    if |row| == 1 {
      LastRead(t, i, row, st);
    } else {
      var k := i + |FieldText(row[0], st)| + 1;
      assert At(t, k, RowText(row[1..], st)) by { RowParts(t, i, row, st); }
      RowBack(t, k, row[1..], st);
      FirstRead(t, i, row, st);
    }
  }

  /** Rows that have columns. */
  ghost predicate AllRows(rows: seq<Row>) {
    forall k | 0 <= k < |rows| :: rows[k] != []
  }

  /** From index `i` on the text is the printed rows. */
  ghost predicate EndsInRows(t: string, i: nat, rows: seq<Row>, st: Style) {
    AllRows(rows) && At(t, i, TableText(rows, st)) && i + |TableText(rows, st)| == |t|
  }

  lemma FirstRow(t: string, i: nat, rows: seq<Row>, st: Style)
    requires EndsInRows(t, i, rows, st) && rows != []
    ensures At(t, i, RowText(rows[0], st))
    ensures EndsInRows(t, i + |RowText(rows[0], st)|, rows[1..], st)
  {
    AtConcat(t, i, RowText(rows[0], st), TableText(rows[1..], st));
  }

  /** From `i` on the reader finds these rows. */
  ghost predicate TableReads(t: string, i: nat, rows: seq<Row>, st: Style) {
    i <= |t| && ReadTable(t, i, st) == rows
  }

  lemma TableReadsOn(t: string, i: nat, rows: seq<Row>, st: Style)
    requires rows != [] && RowReads(t, i, rows[0], st)
    requires TableReads(t, i + |RowText(rows[0], st)|, rows[1..], st)
    ensures TableReads(t, i, rows, st)
  {
    assert rows == [rows[0]] + rows[1..];
  }

  lemma {:induction false} TableBack(t: string, i: nat, rows: seq<Row>, st: Style)
    requires Readable(st) && EndsInRows(t, i, rows, st)
    ensures TableReads(t, i, rows, st)
    decreases |rows|
  {
    if rows == [] {
      assert i == |t|;
    } else {
      FirstRow(t, i, rows, st);
      RowBack(t, i, rows[0], st);
      TableBack(t, i + |RowText(rows[0], st)|, rows[1..], st);
      TableReadsOn(t, i, rows, st);
    }
  }

  /** Any rows of NULLs and strings, printed with a one-byte separator other than
      the double quote and the newline and with a null text that is empty or would
      be quoted as a value, are recovered; NULL and strings stay apart. */
  lemma CsvRoundTrip(rows: seq<Row>, st: Style)
    requires Readable(st) && AllRows(rows)
    ensures ReadTable(TableText(rows, st), 0, st) == rows
  {
    TableBack(TableText(rows, st), 0, rows, st);
  }

  /** A line of column names is read as texts, a missing name as an empty one. */
  lemma NamesBack(azCol: Row, rows: seq<Row>, st: Style)
    requires Readable(st) && azCol != [] && AllRows(rows)
    ensures var read := ReadTable(RowText(Named(azCol), st) + TableText(rows, st), 0, st);
      && |read| == 1 + |rows| && |read[0]| == |azCol|
      && forall k | 0 <= k < |azCol| :: read[0][k] == Text(if azCol[k].Text? then azCol[k].text else "")
  {
    var all := [Named(azCol)] + rows;
    assert all[1..] == rows;
    CsvRoundTrip(all, st);
  }

  /** No two different tables print the same text. */
  ghost predicate Decodable(st: Style) {
    forall a: seq<Row>, b: seq<Row> | AllRows(a) && AllRows(b) && TableText(a, st) == TableText(b, st) :: a == b
  }

  lemma OneFieldRow(f: Field, st: Style)
    ensures RowText([f], st) == FieldText(f, st) + "\n"
  {
    LastCsv(f, [st.sep], st.nullvalue);
  }

  lemma TwoFieldRow(f: Field, g: Field, st: Style)
    ensures RowText([f, g], st) == FieldText(f, st) + [st.sep] + (FieldText(g, st) + "\n")
  {
    OneFieldRow(g, st);
    assert [f, g][1..] == [g];
  }

  lemma OneRow(row: Row, st: Style)
    ensures TableText([row], st) == RowText(row, st)
  {
    assert [row][1..] == [];
    assert CsvTable([row][1..], [st.sep], st.nullvalue) == "";
    assert RowText(row, st) + "" == RowText(row, st);
  }

  /** A newline as separator confuses two rows with two columns. */
  lemma NewlineConfuses(st: Style)
    requires st.sep == '\n'
    ensures !Decodable(st)
  {
    var n := Null;
    var a, b := [[n], [n]], [[n, n]];
    OneFieldRow(n, st);
    TwoFieldRow(n, n, st);
    OneRow([n], st);
    OneRow([n, n], st);
    assert a[1..] == [[n]];
    assert TableText(a, st) == TableText(b, st);
    assert |a| != |b|;
  }

  /** A double quote as separator confuses three empty null texts with an empty string. */
  lemma QuoteConfuses(st: Style)
    requires st == Style('"', "")
    ensures !Decodable(st)
  {
    var n, e := Null, Text("");
    var a, b := [[n, n, n]], [[e]];
    OneRow([n, n, n], st);
    OneRow([e], st);
    OneFieldRow(e, st);
    TwoFieldRow(n, n, st);
    assert [n, n, n][1..] == [n, n];
    assert RowText([n, n, n], st) == "\"" + "\"\n";
    assert RowText([e], st) == "\"\"\n";
    assert |a[0]| != |b[0]|;
  }

  /** A null text that would be printed bare as a value is confused with that value. */
  lemma NullConfuses(st: Style)
    requires !IsQuoted(st.nullvalue, [st.sep])
    ensures !Decodable(st)
  {
    var a, b := [[Null]], [[Text(st.nullvalue)]];
    OneRow([Null], st);
    OneRow([Text(st.nullvalue)], st);
    OneFieldRow(Null, st);
    OneFieldRow(Text(st.nullvalue), st);
    assert a[0][0] != b[0][0];
  }

  /** With a null text that has no quote, newline or separator in it, CSV output is
      uniquely decodable exactly if the one-byte separator is neither the double quote
      nor the newline and the null text is empty or would be quoted as a value. */
  lemma DecodableIff(st: Style)
    requires CleanFor(st.nullvalue, st.sep) && (st.sep == '"' ==> st.nullvalue == "")
    ensures Decodable(st) <==> Separating(st.sep) && IsQuoted(st.nullvalue, [st.sep])
  {
    if Readable(st) {
      forall a: seq<Row>, b: seq<Row> | AllRows(a) && AllRows(b) && TableText(a, st) == TableText(b, st)
        ensures a == b
      {
        CsvRoundTrip(a, st);
        CsvRoundTrip(b, st);
      }
    } else if st.sep == '\n' {
      NewlineConfuses(st);
    } else if st.sep == '"' {
      QuoteConfuses(st);
    } else {
      NullConfuses(st);
    }
  }
}
