/** SQL text written by the sqlite shell (sqlite/shell.c): numbers, string literals,
    table names and INSERT statements. */
module ShellSql {
  import opened CText
  import opened ShellTypes
  import opened Wrappers

  // ----------------------------------------------------------------- numbers

  predicate IsSign(c: char) {
    c == '+' || c == '-'
  }

  /** `z[i..k]` is a nonempty run of digits. */
  ghost predicate Digits(z: string, i: nat, k: nat) {
    i < k <= |z| && forall j | i <= j < k :: IsDigit(z[j])
  }

  /** From `i` on: nothing, or an e, an optional sign and digits. */
  ghost predicate Exponent(z: string, i: nat) {
    || i == |z|
    || (i + 1 < |z| && (z[i] == 'e' || z[i] == 'E')
        && (Digits(z, i + 1, |z|) || (IsSign(z[i + 1]) && Digits(z, i + 2, |z|))))
  }

  /** An optional sign, the integer part up to `a`, the fraction up to `b`, the exponent. */
  ghost predicate NumeralParts(z: string, i: nat, a: nat, b: nat) {
    && (i == 0 || (i == 1 && z != "" && IsSign(z[0])))
    && Digits(z, i, a)
    && (b == a || (a < |z| && z[a] == '.' && Digits(z, a + 1, b)))
    && Exponent(z, b)
  }

  ghost predicate Numeral(z: string) {
    exists i: nat, a: nat, b: nat :: NumeralParts(z, i, a, b)
  }

  /** The end of the run of digits at `i`. */
  function DigitsEnd(z: string, i: nat): (k: nat)
    requires i <= |z|
    ensures i <= k <= |z|
    decreases |z| - i
  {
    if i < |z| && IsDigit(z[i]) then DigitsEnd(z, i + 1) else i
  }

  lemma {:induction false} DigitsEndMeaning(z: string, i: nat)
    requires i <= |z|
    ensures var k := DigitsEnd(z, i);
      (k < |z| ==> !IsDigit(z[k])) && forall j | i <= j < k :: IsDigit(z[j])
    decreases |z| - i
  {
    if i >= |z| || !IsDigit(z[i]) {
    } else {
      DigitsEndMeaning(z, i + 1);
    }
  }

  /** A run of digits can end in one place only. */
  lemma {:induction false} DigitsEndIs(z: string, i: nat, k: nat)
    requires i <= k <= |z| && (k < |z| ==> !IsDigit(z[k])) && forall j | i <= j < k :: IsDigit(z[j])
    ensures DigitsEnd(z, i) == k
    decreases k - i
  {
    if i == k {
    } else {
      DigitsEndIs(z, i + 1, k);
    }
  }

  method SkipDigits(z: string, i: nat) returns (k: nat)
    requires i <= |z|
    ensures k == DigitsEnd(z, i)
  {
    k := i;
    while k < |z| && IsDigit(z[k])
      invariant i <= k <= |z| && DigitsEnd(z, k) == DigitsEnd(z, i)
    {
      k := k + 1;
    }
  }

  function AfterSign(z: string, i: nat): (k: nat) {
    if IsSign(CharAt(z, i)) then i + 1 else i
  }

  /** Where the fraction that begins at `a` ends. */
  function FractionEnd(z: string, a: nat): (b: nat)
    requires a <= |z|
    ensures a <= b <= |z|
  {
    if CharAt(z, a) == '.' then DigitsEnd(z, a + 1) else a
  }

  /** The parts of a numeral can be found by scanning. */
  lemma PartsAreScanned(z: string, i: nat, a: nat, b: nat)
    requires NumeralParts(z, i, a, b)
    ensures i == AfterSign(z, 0) && a == DigitsEnd(z, i) && b == FractionEnd(z, a)
  {
    assert IsDigit(z[i]);
    DigitsEndIs(z, i, a);
    if b != a {
      DigitsEndIs(z, a + 1, b);
    }
  }

  lemma NumeralIff(z: string)
    ensures var i := AfterSign(z, 0);
      Numeral(z) <==> i <= |z| && NumeralParts(z, i, DigitsEnd(z, i), FractionEnd(z, DigitsEnd(z, i)))
  {
    if Numeral(z) {
      var i: nat, a: nat, b: nat :| NumeralParts(z, i, a, b);
      PartsAreScanned(z, i, a, b);
    }
  }

  lemma DigitsRun(z: string, i: nat)
    requires i <= |z|
    ensures Digits(z, i, DigitsEnd(z, i)) <==> IsDigit(CharAt(z, i))
  {
    DigitsEndMeaning(z, i);
  }

  /** The exponent is right exactly if the scan accepts it and comes to the end. */
  lemma ExponentIff(z: string, b: nat)
    requires b < |z| && (z[b] == 'e' || z[b] == 'E')
    ensures var d := AfterSign(z, b + 1);
      d <= |z| && (Exponent(z, b) <==> IsDigit(CharAt(z, d)) && DigitsEnd(z, d) == |z|)
  {
    var d := AfterSign(z, b + 1);
    DigitsEndMeaning(z, d);
    if Exponent(z, b) {
      assert b + 1 < |z|;
      if Digits(z, b + 1, |z|) {
        assert IsDigit(z[b + 1]);
      }
      DigitsEndIs(z, d, |z|);
    }
  }

  /** The last part of `isNumber`: the exponent and the end of the text. */
  method EndsAsNumber(z: string, b: nat) returns (ok: bool, exponent: bool)
    requires b <= |z|
    ensures ok <==> Exponent(z, b)
    ensures ok ==> (exponent <==> b < |z|)
  {
    var end := b;
    exponent := false;
    if CharAt(z, b) == 'e' || CharAt(z, b) == 'E' {
      ExponentIff(z, b);
      end := end + 1;
      if CharAt(z, end) == '+' || CharAt(z, end) == '-' {
        end := end + 1;
      }
      if !IsDigit(CharAt(z, end)) {
        return false, exponent;
      }
      end := SkipDigits(z, end);
      exponent := true;
    }
    return end == |z|, exponent;
  }

  /** Has the numeral a fraction or an exponent? */
  ghost predicate RealNumeral(z: string) {
    exists k: nat :: k < |z| && (z[k] == '.' || z[k] == 'e' || z[k] == 'E')
  }

  /** The integer part ends the text exactly if there is neither. */
  lemma RealIff(z: string, i: nat, a: nat, b: nat)
    requires NumeralParts(z, i, a, b)
    ensures RealNumeral(z) <==> a < |z|
  {
    if a < |z| {
      assert z[a] == '.' || z[a] == 'e' || z[a] == 'E';
    } else {
      forall k: nat | k < |z|
        ensures z[k] != '.' && z[k] != 'e' && z[k] != 'E'
      {
        assert k < i || IsDigit(z[k]);
      }
    }
  }

  /** Numbers are exactly the texts of the form digits, with an optional sign before
      and an optional fraction and an optional exponent behind; those with a fraction
      or an exponent are real. */
  method IsNumber(z: string) returns (number: bool, realnum: bool)
    ensures number <==> Numeral(z)
    ensures number ==> (realnum <==> RealNumeral(z))
  {
    NumeralIff(z);
    realnum := false;
    var i: nat := 0;
    if CharAt(z, i) == '-' || CharAt(z, i) == '+' {
      i := i + 1;
    }
    DigitsRun(z, i);
    if !IsDigit(CharAt(z, i)) {
      return false, realnum;
    }
    var a := SkipDigits(z, i + 1);
    var b := a;
    if CharAt(z, a) == '.' {
      b := b + 1;
      DigitsRun(z, b);
      if !IsDigit(CharAt(z, b)) {
        return false, realnum;
      }
      b := SkipDigits(z, b);
      realnum := true;
    }
    var exponent;
    number, exponent := EndsAsNumber(z, b);
    if exponent {
      realnum := true;
    }
    if number {
      RealIff(z, i, a, b);
    }
  }

  // ---------------------------------------------------------------- literals

  /** Where the next single quote is, or the end. */
  method NextQuote(z: string, from: nat) returns (i: nat)
    requires from <= |z|
    ensures i == Find(z, from, '\'')
  {
    i := from;
    while i < |z| && z[i] != '\''
      invariant from <= i <= |z| && Find(z, i, '\'') == Find(z, from, '\'')
    {
      i := i + 1;
    }
  }

  /** Text without a quote up to `k`, then the rest. */
  lemma {:induction false} DoubledRun(z: string, i: nat, k: nat, q: char)
    requires i <= k <= |z| && forall j | i <= j < k :: z[j] != q
    ensures Doubled(z[i..], q) == z[i..k] + Doubled(z[k..], q)
    decreases k - i
  {
    if i < k {
      DoubledAt(z, i, q);
      DoubledRun(z, i + 1, k, q);
      assert z[i..k] == [z[i]] + z[i + 1..k];
      AppendAssoc([z[i]], z[i + 1..k], Doubled(z[k..], q));
    } else {
      assert z[i..k] == "";
    }
  }

  /** One round of the loop of `output_quoted_string`: the text up to the next quote
      and that quote doubled. */
  lemma Segment(z: string, i: nat, k: nat)
    requires i < |z| && k == Find(z, i, '\'')
    ensures Doubled(z[i..], '\'') == if k < |z| then (z[i..k] + "\'\'") + Doubled(z[k + 1..], '\'') else z[i..]
  {
    FindMeaning(z, i, '\'');
    DoubledRun(z, i, k, '\'');
    if k < |z| {
      DoubledAt(z, k, '\'');
      AppendAssoc(z[i..k], "\'\'", Doubled(z[k + 1..], '\''));
    } else {
      assert z[i..k] == z[i..] && z[k..] == "";
    }
  }

  /** What one round of the loop of `output_quoted_string` prints. */
  function Piece(z: string, from: nat): string
    requires from < |z|
  {
    var i := Find(z, from, '\'');
    if i < |z| then z[from..i] + "\'\'" else z[from..]
  }

  function PieceEnd(z: string, from: nat): (k: nat)
    requires from < |z|
    ensures from < k <= |z|
  {
    var i := Find(z, from, '\'');
    if i < |z| then i + 1 else i
  }

  lemma PieceAndRest(z: string, from: nat)
    requires from < |z|
    ensures Doubled(z[from..], '\'') == Piece(z, from) + Doubled(z[PieceEnd(z, from)..], '\'')
  {
    Segment(z, from, Find(z, from, '\''));
  }

  method PutPiece(out: Output, z: string, from: nat) returns (next: nat)
    requires from < |z|
    modifies out
    ensures out.text == old(out.text) + Piece(z, from) && next == PieceEnd(z, from)
  {
    var i := NextQuote(z, from);
    if i == from {
      out.Put("\'\'");
      next := from + 1;
      assert z[from..from] + "\'\'" == "\'\'";
    } else if i < |z| {
      out.Put(z[from..i] + "\'\'");
      next := i + 1;
    } else {
      out.Put(z[from..]);
      next := |z|;
    }
  }

  /** The loop of `output_quoted_string`. */
  method PutSegments(out: Output, z: string)
    modifies out
    ensures out.text == old(out.text) + Doubled(z, '\'')
  {
    var from: nat := 0;
    ghost var start, done := out.text, "";
    assert z[0..] == z;
    while from < |z|
      invariant from <= |z| && out.text == start + done
      invariant done + Doubled(z[from..], '\'') == Doubled(z, '\'')
    {
      PieceAndRest(z, from);
      ghost var piece := Piece(z, from);
      from := PutPiece(out, z, from);
      AppendAssoc(done, piece, Doubled(z[from..], '\''));
      AppendAssoc(start, done, piece);
      done := done + piece;
    }
  }

  method OutputQuotedString(out: Output, z: string)
    modifies out
    ensures out.text == old(out.text) + Quote('\'', z)
  {
    var nSingle := 0;
    for i := 0 to |z|
      invariant nSingle == 0 <==> '\'' !in z[..i]
    {
      if z[i] == '\'' {
        nSingle := nSingle + 1;
      }
    }
    assert z[..|z|] == z;
    ghost var start := out.text;
    out.Put("'");
    if nSingle == 0 {
      DoubledPlain(z, '\'');
      out.Put(z);
    } else {
      PutSegments(out, z);
    }
    out.Put("'");
    assert out.text == start + "'" + Doubled(z, '\'') + "'";
  }

  // ------------------------------------------------------------- table names

  predicate NeedsQuote(name: string) {
    name == "" || IsDigit(name[0]) || exists k: nat :: k < |name| && !IsNameByte(name[k])
  }

  /** How a table name is written: bare, or as a string literal. */
  function TableName(name: string): string {
    if NeedsQuote(name) then Quote('\'', name) else name
  }

  /** From index `n` on `all` is the rest of `s` from `i` on, doubled. */
  ghost predicate Ends(all: string, n: nat, s: string, i: nat, q: char)
    requires i <= |s|
  {
    At(all, n, Doubled(s[i..], q)) && n + |Doubled(s[i..], q)| == |all|
  }

  /** The part of `all` before `end` has been written; the rest is that of `s` from `i` on. */
  ghost predicate Written(a: array<char>, at: nat, end: nat, all: string, s: string, i: nat, q: char)
    requires i <= |s|
    reads a
  {
    && at <= end <= at + |all| <= a.Length && Ends(all, end - at, s, i, q)
    && forall k | 0 <= k < end - at :: a[at + k] == all[k]
  }

  lemma EndsStep(all: string, n: nat, s: string, i: nat, q: char)
    requires i < |s| && Ends(all, n, s, i, q)
    ensures n < |all| && all[n] == s[i]
    ensures if s[i] == q then n + 1 < |all| && all[n + 1] == q && Ends(all, n + 2, s, i + 1, q)
            else Ends(all, n + 1, s, i + 1, q)
  {
    DoubledAt(s, i, q);
    var one := if s[i] == q then [q, q] else [s[i]];
    AtConcat(all, n, one, Doubled(s[i + 1..], q));
    AtHead(all, n, one);
    assert |one| == 2 ==> all[n + 1] == one[1];
  }

  /** One byte, twice if it is `q`. */
  method WriteOne(a: array<char>, at: nat, end: nat, s: string, i: nat, q: char, ghost all: string) returns (end': nat)
    requires i < |s| && Written(a, at, end, all, s, i, q)
    modifies a
    ensures end < end' && Written(a, at, end', all, s, i + 1, q)
    ensures forall k | 0 <= k < a.Length && !(end <= k < end') :: a[k] == old(a[k])
  {
    EndsStep(all, end - at, s, i, q);
    a[end] := s[i];
    end' := end + 1;
    if s[i] == q {
      a[end'] := q;
      end' := end' + 1;
    }
  }

  /** Writes the text with every `q` doubled to index `at`. */
  method WriteDoubled(a: array<char>, at: nat, s: string, q: char) returns (end: nat)
    requires at + |Doubled(s, q)| <= a.Length
    modifies a
    ensures end == at + |Doubled(s, q)|
    ensures forall k | 0 <= k < |Doubled(s, q)| :: a[at + k] == Doubled(s, q)[k]
    ensures forall k | 0 <= k < a.Length && !(at <= k < end) :: a[k] == old(a[k])
  {
    end := at;
    ghost var all := Doubled(s, q);
    assert s[0..] == s;
    for i := 0 to |s|
      invariant Written(a, at, end, all, s, i, q)
      invariant forall k | 0 <= k < a.Length && !(at <= k < end) :: a[k] == old(a[k])
    {
      end := WriteOne(a, at, end, s, i, q, all);
    }
    assert s[|s|..] == "";
  }

  /** Writes the quoted text to index `at`. */
  method WriteQuoted(a: array<char>, at: nat, s: string, q: char) returns (end: nat)
    requires at + |Quote(q, s)| <= a.Length
    modifies a
    ensures end == at + |Quote(q, s)|
    ensures forall k | 0 <= k < |Quote(q, s)| :: a[at + k] == Quote(q, s)[k]
    ensures forall k | 0 <= k < a.Length && !(at <= k < end) :: a[k] == old(a[k])
  {
    a[at] := q;
    end := WriteDoubled(a, at + 1, s, q);
    a[end] := q;
    end := end + 1;
    ghost var text := Doubled(s, q);
    forall k | 0 <= k < |Quote(q, s)|
      ensures a[at + k] == Quote(q, s)[k]
    {
      assert 0 < k <= |text| ==> a[at + 1 + (k - 1)] == text[k - 1];
    }
  }

  /** How many bytes quoting adds inside the quotes. */
  method CountQuotes(s: string, q: char) returns (n: nat)
    ensures |s| + n == |Doubled(s, q)|
  {
    n := 0;
    assert s[0..] == s;
    for i := 0 to |s|
      invariant i + n + |Doubled(s[i..], q)| == |Doubled(s, q)|
    {
      DoubledAt(s, i, q);
      if s[i] == q {
        n := n + 1;
      }
    }
    assert s[|s|..] == "";
  }

  /** The first loop of `set_table_name`: whether and how long the name is written. */
  method MeasureName(name: string) returns (needQuote: bool, n: nat)
    ensures needQuote == NeedsQuote(name) && n == |TableName(name)|
  {
    needQuote := name == "" || (!IsAlpha(name[0]) && name[0] != '_');
    n := 0;
    assert name[0..] == name;
    for i := 0 to |name|
      invariant needQuote <==> name == "" || (!IsAlpha(name[0]) && name[0] != '_')
                               || exists k: nat :: k < i && !IsNameByte(name[k])
      invariant n + |Doubled(name[i..], '\'')| == |Doubled(name, '\'')|
    {
      DoubledAt(name, i, '\'');
      if !IsAlpha(name[i]) && !IsDigit(name[i]) && name[i] != '_' {
        needQuote := true;
        if name[i] == '\'' {
          n := n + 1;
        }
      }
      n := n + 1;
    }
    assert name[|name|..] == "";
    if needQuote {
      n := n + 2;
    } else {
      DoubledPlain(name, '\'');
    }
  }

  /** The second loop: the name in a buffer of just that size. */
  method WriteName(name: string, needQuote: bool, size: nat) returns (z: array<char>)
    requires needQuote == NeedsQuote(name) && size == |TableName(name)|
    ensures fresh(z) && z.Length == size + 1 && StandsAt(z, 0, TableName(name))
  {
    z := new char[size + 1](_ => NUL);
    var n;
    if needQuote {
      n := WriteQuoted(z, 0, name, '\'');
    } else {
      DoubledPlain(name, '\'');
      n := WriteDoubled(z, 0, name, '\'');
    }
    z[n] := NUL;
  }

  // -------------------------------------------------------------- statements

  /** A value in an INSERT statement: numbers stay bare. */
  ghost function ValueText(f: Field): string {
    match f
    case Null => "NULL"
    case Text(z) => if Numeral(z) then z else Quote('\'', z)
  }

  /** The values from column `i` on and the end of the statement. */
  ghost function ValuesFrom(row: Row, i: nat): string
    requires i <= |row|
    decreases |row| - i
  {
    if i == |row| then ");\n"
    else ((if i > 0 then "," else "") + ValueText(row[i])) + ValuesFrom(row, i + 1)
  }

  ghost function InsertText(dest: string, row: Row): string {
    "INSERT INTO " + dest + " VALUES(" + ValuesFrom(row, 0)
  }

  /** Fills a buffer of exactly the computed size with the written name. */
  method SetTableName(p: CallbackData, zName: Option<string>)
    modifies p`zDestTable
    ensures zName.None? <==> p.zDestTable == null
    ensures zName.Some? ==> fresh(p.zDestTable) && p.zDestTable.Length == |TableName(zName.value)| + 1
                            && StandsAt(p.zDestTable, 0, TableName(zName.value))
  {
    p.zDestTable := null;
    if zName.Some? {
      var needQuote, n := MeasureName(zName.value);
      p.zDestTable := WriteName(zName.value, needQuote, n);
    }
  }

  /** One value and the comma before it. */
  method PutValue(out: Output, f: Field, zSep: string, ghost rest: string, ghost whole: string)
    requires whole == (zSep + ValueText(f)) + rest
    modifies out
    ensures out.text + rest == old(out.text) + whole
  {
    AppendAssoc(out.text, zSep + ValueText(f), rest);
    AppendAssoc(out.text, zSep, ValueText(f));
    var number := false;
    if f.Text? {
      var realnum;
      number, realnum := IsNumber(f.text);
    }
    out.Put(zSep);
    if f.Null? {
      out.Put("NULL");
    } else if number {
      out.Put(f.text);
    } else {
      OutputQuotedString(out, f.text);
    }
  }

  method PutStatement(out: Output, name: string, azArg: Row)
    modifies out
    ensures out.text == old(out.text) + InsertText(name, azArg)
  {
    ghost var goal := out.text + InsertText(name, azArg);
    ghost var head := "INSERT INTO " + name + " VALUES(";
    AppendAssoc(out.text, "INSERT INTO " + name, " VALUES(");
    AppendAssoc(out.text, "INSERT INTO ", name);
    AppendAssoc(out.text, head, ValuesFrom(azArg, 0));
    out.Put("INSERT INTO ");
    out.Put(name);
    out.Put(" VALUES(");
    for i := 0 to |azArg|
      invariant out.text + ValuesFrom(azArg, i) == goal
    {
      PutValue(out, azArg[i], if i > 0 then "," else "", ValuesFrom(azArg, i + 1), ValuesFrom(azArg, i));
    }
    out.Put(");\n");
  }

  /** `callback` in insert mode: the statement for one row, nothing without a row. */
  method CallbackInsert(p: CallbackData, azArg: Option<Row>, ghost dest: string)
    requires p.zDestTable != null && NUL !in dest && StandsAt(p.zDestTable, 0, dest)
    modifies p.out
    ensures p.out.text == old(p.out.text) + if azArg.Some? then InsertText(dest, azArg.value) else ""
  {
    if azArg.Some? {
      var name := StringAt(p.zDestTable, 0, dest);
      PutStatement(p.out, name, azArg.value);
    }
  }

  // -------------------------------------------------------------- round trip

  /** The words that an SQL reader does not take for names unless they are quoted;
      which they are depends on the reader. */
  type Reserved = string -> bool

  /** A name without quotes at `i` and the index behind it: it begins with a letter or an
      underscore. */
  function BareName(t: string, i: nat): (r: Option<(string, nat)>)
    requires i <= |t|
    ensures r.Some? ==> i < r.value.1 <= |t|
  {
    if i < |t| && (IsAlpha(t[i]) || t[i] == '_') then Some((t[i..NameEnd(t, i)], NameEnd(t, i))) else None
  }

  /** A table name and the index behind it. */
  function ReadName(t: string, i: nat, reserved: Reserved): (r: Option<(string, nat)>)
    requires i <= |t|
    ensures r.Some? ==> i <= r.value.1 <= |t|
  {
    if i < |t| && t[i] == '\'' then Unquoted(t, i + 1, '\'')
    else match BareName(t, i)
         case None => None
         case Some(name) => if reserved(name.0) then None else Some(name)
  }

  /** Where a bare value ends. */
  function ValueEnd(t: string, i: nat): (k: nat)
    requires i <= |t|
    ensures i <= k <= |t|
    decreases |t| - i
  {
    if i < |t| && t[i] != ',' && t[i] != ')' then ValueEnd(t, i + 1) else i
  }

  lemma {:induction false} ValueEndIs(t: string, i: nat, k: nat)
    requires i <= k < |t| && (t[k] == ',' || t[k] == ')') && forall j | i <= j < k :: t[j] != ',' && t[j] != ')'
    ensures ValueEnd(t, i) == k
    decreases k - i
  {
    if i == k {
    } else {
      ValueEndIs(t, i + 1, k);
    }
  }

  /** A value as an SQL reader has it. */
  datatype Value = NoValue | Number(numeral: string) | Str(text: string)

  /** The field that the value stands for. */
  function FieldOf(v: Value): Field {
    match v
    case NoValue => Null
    case Number(z) => Text(z)
    case Str(z) => Text(z)
  }

  /** One value: a string literal, NULL or a number. */
  ghost function ReadValue(t: string, i: nat): (r: Option<(Value, nat)>)
    requires i <= |t|
    ensures r.Some? ==> i <= r.value.1 <= |t|
  {
    if i < |t| && t[i] == '\'' then
      match Unquoted(t, i + 1, '\'')
      case None => None
      case Some(s) => Some((Str(s.0), s.1))
    else
      var k := ValueEnd(t, i);
      if t[i..k] == "NULL" then Some((NoValue, k))
      else if Numeral(t[i..k]) then Some((Number(t[i..k]), k))
      else None
  }

  /** The values up to the end of the statement, all but the first after a comma. */
  ghost function ReadValues(t: string, i: nat, first: bool): Option<seq<Value>>
    requires i <= |t|
    decreases |t| - i, 1
  {
    if At(t, i, ");\n") && i + 3 == |t| then Some([])
    else if first then ReadMore(t, i, i)
    else if i < |t| && t[i] == ',' then ReadMore(t, i, i + 1)
    else None
  }

  function Prefixed(v: Value, values: Option<seq<Value>>): Option<seq<Value>> {
    if values.None? then None else Some([v] + values.value)
  }

  /** A value at `j` and those behind it; `from` bounds the rest from below. */
  ghost function ReadMore(t: string, from: nat, j: nat): Option<seq<Value>>
    requires from <= j <= |t|
    decreases |t| - from, 0
  {
    match ReadValue(t, j)
    case None => None
    case Some(v) => if v.1 == from then None else Prefixed(v.0, ReadValues(t, v.1, false))
  }

  /** Table name and values of an INSERT statement. */
  ghost function ReadInsert(t: string, reserved: Reserved): Option<(string, seq<Value>)> {
    if !At(t, 0, "INSERT INTO ") then None
    else match ReadName(t, 12, reserved)
         case None => None
         case Some(name) =>
           if !At(t, name.1, " VALUES(") then None
           else match ReadValues(t, name.1 + 8, true)
                case None => None
                case Some(values) => Some((name.0, values))
  }

  /** Numbers have no comma, parenthesis or quote in them and are not NULL. */
  lemma NumeralBytes(z: string)
    requires Numeral(z)
    ensures z != "" && z != "NULL" && z[0] != '\'' && forall k | 0 <= k < |z| :: z[k] != ',' && z[k] != ')'
  {
    var i: nat, a: nat, b: nat :| NumeralParts(z, i, a, b);
    assert IsDigit(z[i]);
    forall k | 0 <= k < |z|
      ensures IsDigit(z[k]) || IsSign(z[k]) || z[k] == '.' || z[k] == 'e' || z[k] == 'E'
    {
    }
  }

  /** A name is written as it is exactly if it can be read so. */
  lemma BareIff(name: string)
    ensures TableName(name) == name <==> BareName(name, 0) == Some((name, |name|))
  {
    if NeedsQuote(name) {
      DoubledIsNotShorter(name, '\'');
      if name != "" && NameEnd(name, 0) == |name| {
        NameEndMeaning(name, 0);
      }
    } else {
      NameEndIs(name, 0, |name|);
      assert name[0..|name|] == name;
      assert IsNameByte(name[0]);
    }
  }

  /** Is the name as it is written safe from being taken for a reserved word? */
  predicate SafeName(name: string, reserved: Reserved) {
    NeedsQuote(name) || !reserved(name)
  }

  lemma NameBack(t: string, i: nat, name: string, reserved: Reserved)
    requires At(t, i, TableName(name))
    requires var k := i + |TableName(name)|; k < |t| && t[k] == ' '
    ensures ReadName(t, i, reserved)
         == if SafeName(name, reserved) then Some((name, i + |TableName(name)|)) else None
  {
    if NeedsQuote(name) {
      QuoteBack(t, i, name, '\'');
    } else {
      AtHead(t, i, name);
      forall j | i <= j < i + |name|
        ensures IsNameByte(t[j])
      {
        assert t[i + (j - i)] == name[j - i];
      }
      NameEndIs(t, i, i + |name|);
      assert t[i..i + |name|] == name;
    }
  }

  /** What the field is in SQL: a text that is a number is one. */
  ghost function Meant(f: Field): (v: Value)
    ensures FieldOf(v) == f
  {
    match f
    case Null => NoValue
    case Text(z) => if Numeral(z) then Number(z) else Str(z)
  }

  /** The same for the columns from `c` on. */
  ghost function MeantFrom(row: Row, c: nat): (values: seq<Value>)
    requires c <= |row|
    ensures |values| == |row| - c
    decreases |row| - c
  {
    if c == |row| then [] else [Meant(row[c])] + MeantFrom(row, c + 1)
  }

  lemma {:induction false} MeantAt(row: Row, c: nat, k: nat)
    requires c + k < |row|
    ensures MeantFrom(row, c)[k] == Meant(row[c + k])
    decreases k
  {
    if k == 0 {
    } else {
      MeantAt(row, c + 1, k - 1);
    }
  }

  lemma ValueBack(t: string, i: nat, f: Field)
    requires At(t, i, ValueText(f))
    requires var k := i + |ValueText(f)|; k < |t| && (t[k] == ',' || t[k] == ')')
    ensures ReadValue(t, i) == Some((Meant(f), i + |ValueText(f)|))
  {
    var text := ValueText(f);
    if f.Text? && !Numeral(f.text) {
      QuoteBack(t, i, f.text, '\'');
    } else {
      if f.Text? {
        NumeralBytes(f.text);
      }
      AtHead(t, i, text);
      forall j | i <= j < i + |text|
        ensures t[j] != ',' && t[j] != ')'
      {
        assert t[i + (j - i)] == text[j - i];
      }
      ValueEndIs(t, i, i + |text|);
      assert t[i..i + |text|] == text;
    }
  }

  lemma ValueHead(f: Field)
    ensures ValueText(f) != "" && ValueText(f)[0] != ')'
  {
    if f.Text? && Numeral(f.text) {
      NumeralBytes(f.text);
    }
  }

  lemma ValuesHead(row: Row, c: nat)
    requires 0 < c <= |row|
    ensures ValuesFrom(row, c) != "" && ValuesFrom(row, c)[0] == if c < |row| then ',' else ')'
  {
  }

  /** Where the value of column `c` begins and ends when its part begins at `i`. */
  function ValueStart(i: nat, c: nat): nat {
    if c > 0 then i + 1 else i
  }

  ghost function ValueStop(i: nat, row: Row, c: nat): nat
    requires c < |row|
  {
    ValueStart(i, c) + |ValueText(row[c])|
  }

  lemma {:induction false} ValueParts(t: string, i: nat, row: Row, c: nat)
    requires c < |row| && At(t, i, ValuesFrom(row, c))
    ensures At(t, i, if c > 0 then "," else "") && At(t, ValueStart(i, c), ValueText(row[c]))
    ensures At(t, ValueStop(i, row, c), ValuesFrom(row, c + 1))
    ensures |ValuesFrom(row, c)| == ValueStop(i, row, c) - i + |ValuesFrom(row, c + 1)|
  {
    var comma, text, rest := if c > 0 then "," else "", ValueText(row[c]), ValuesFrom(row, c + 1);
    AtConcat(t, i, comma + text, rest);
    AtConcat(t, i, comma, text);
  }

  /** The text at column `c`: an optional comma, the value, and a delimiter. */
  lemma ColumnAt(t: string, i: nat, row: Row, c: nat)
    requires c < |row| && At(t, i, ValuesFrom(row, c))
    ensures var k := ValueStop(i, row, c);
      && (if c > 0 then i < |t| && t[i] == ',' else i < |t| && t[i] != ')')
      && i < k < |t| && (t[k] == ',' || t[k] == ')')
  {
    ValueParts(t, i, row, c);
    ValueHead(row[c]);
    AtHead(t, ValueStart(i, c), ValueText(row[c]));
    ValuesHead(row, c + 1);
    AtHead(t, ValueStop(i, row, c), ValuesFrom(row, c + 1));
    if c > 0 {
      AtHead(t, i, ",");
    }
  }

  lemma NoEnd(t: string, i: nat)
    requires i < |t| && t[i] != ')'
    ensures !At(t, i, ");\n")
  {
    if At(t, i, ");\n") {
      AtHead(t, i, ");\n");
    }
  }

  /** From index `i` on the text is the values from column `c` on. */
  ghost predicate EndsInValues(t: string, i: nat, row: Row, c: nat) {
    c <= |row| && At(t, i, ValuesFrom(row, c)) && i + |ValuesFrom(row, c)| == |t|
  }

  lemma ReadValuesIs(t: string, i: nat, first: bool)
    requires i < |t| && t[i] != ')' && (!first ==> t[i] == ',')
    ensures ReadValues(t, i, first) == ReadMore(t, i, if first then i else i + 1)
  {
    NoEnd(t, i);
  }

  lemma ReadMoreIs(t: string, from: nat, j: nat, v: Value, k: nat)
    requires from <= j <= |t| && from < k <= |t| && ReadValue(t, j) == Some((v, k))
    ensures ReadMore(t, from, j) == Prefixed(v, ReadValues(t, k, false))
  {
  }

  lemma ValueRead(t: string, i: nat, row: Row, c: nat)
    requires c < |row| && At(t, i, ValuesFrom(row, c))
    ensures ValueStart(i, c) <= |t| && ReadValue(t, ValueStart(i, c)) == Some((Meant(row[c]), ValueStop(i, row, c)))
  {
    ColumnAt(t, i, row, c);
    ValueParts(t, i, row, c);
    ValueBack(t, ValueStart(i, c), row[c]);
  }

  /** The value of column `c` is read, and the others follow. */
  lemma ReadColumn(t: string, i: nat, row: Row, c: nat)
    requires c < |row| && At(t, i, ValuesFrom(row, c))
    ensures var k := ValueStop(i, row, c);
      i <= |t| && k <= |t| && ReadValues(t, i, c == 0) == Prefixed(Meant(row[c]), ReadValues(t, k, false))
  {
    ColumnAt(t, i, row, c);
    ValueRead(t, i, row, c);
    ReadValuesIs(t, i, c == 0);
    ReadMoreIs(t, i, ValueStart(i, c), Meant(row[c]), ValueStop(i, row, c));
  }

  lemma ValuesEnd(t: string, i: nat, first: bool)
    requires At(t, i, ");\n") && i + 3 == |t|
    ensures ReadValues(t, i, first) == Some([])
  {
  }

  lemma EndsInMore(t: string, i: nat, row: Row, c: nat)
    requires EndsInValues(t, i, row, c) && c < |row|
    ensures EndsInValues(t, ValueStop(i, row, c), row, c + 1)
  {
    ValueParts(t, i, row, c);
  }

  lemma {:induction false} ValuesBack(t: string, i: nat, row: Row, c: nat)
    requires EndsInValues(t, i, row, c)
    ensures i <= |t| && ReadValues(t, i, c == 0) == Some(MeantFrom(row, c))
    decreases |row| - c
  {
    if c == |row| {
      ValuesEnd(t, i, c == 0);
    } else {
      var k := ValueStop(i, row, c);
      calc {
        ReadValues(t, i, c == 0);
        { ReadColumn(t, i, row, c); }
        Prefixed(Meant(row[c]), ReadValues(t, k, false));
        { EndsInMore(t, i, row, c); ValuesBack(t, k, row, c + 1); }
        Some([Meant(row[c])] + MeantFrom(row, c + 1));
      }
    }
  }

  lemma StatementParts(text: string, rest: string)
    ensures var t := "INSERT INTO " + text + " VALUES(" + rest;
      && At(t, 0, "INSERT INTO ") && At(t, 12, text) && At(t, 12 + |text|, " VALUES(")
      && At(t, 12 + |text| + 8, rest) && 12 + |text| + 8 + |rest| == |t|
  {
    var t := "INSERT INTO " + text + " VALUES(" + rest;
    AtConcat(t, 0, "INSERT INTO " + text + " VALUES(", rest);
    AtConcat(t, 0, "INSERT INTO " + text, " VALUES(");
    AtConcat(t, 0, "INSERT INTO ", text);
  }

  /** The values stand for the fields of the row, and those are numbers that look so. */
  ghost predicate StandFor(values: seq<Value>, row: Row) {
    && |values| == |row|
    && forall k | 0 <= k < |row| ::
         FieldOf(values[k]) == row[k] && (values[k].Number? <==> row[k].Text? && Numeral(row[k].text))
  }

  lemma MeantStandFor(row: Row)
    ensures StandFor(MeantFrom(row, 0), row)
  {
    forall k | 0 <= k < |row|
      ensures MeantFrom(row, 0)[k] == Meant(row[k])
    {
      MeantAt(row, 0, k);
    }
  }

  /** Table name and row are recovered from a printed INSERT statement exactly if the
      name is written in quotes or is no reserved word; numbers are read as numbers, and
      never confused with NULL and quoted text. */
  lemma InsertRoundTrip(name: string, row: Row, reserved: Reserved)
    ensures var read := ReadInsert(InsertText(TableName(name), row), reserved);
      if SafeName(name, reserved) then read.Some? && read.value.0 == name && StandFor(read.value.1, row)
      else read == None
  {
    MeantStandFor(row);
    var text := TableName(name);
    var t := InsertText(text, row);
    StatementParts(text, ValuesFrom(row, 0));
    AtHead(t, 12 + |text|, " VALUES(");
    NameBack(t, 12, name, reserved);
    ValuesBack(t, 12 + |text| + 8, row, 0);
  }
}
