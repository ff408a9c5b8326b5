/** The query that dumps a table (sqlite/shell.c): how `dump_callback` builds it, how
    it is read, and what it computes. */
module ShellDump {
  import opened CText
  import opened ShellSql
  import opened SqlLexer
  import opened Wrappers

  // ---------------------------------------------------------- text in buffers

  method Strlen(a: array<char>, ghost s: string) returns (n: nat)
    requires StandsAt(a, 0, s) && NUL !in s
    ensures n == |s|
  {
    n := 0;
    while a[n] != NUL
      invariant n <= |s| && (n < |s| ==> a[n] == s[n])
      decreases |s| - n
    {
      n := n + 1;
    }
  }

  /** What `appendText` adds: the text, in quotes if a quote is given. */
  function Appended(text: string, quote: char): string {
    if quote == NUL then text else Quote(quote, text)
  }

  /** The length that `appendText` computes. */
  method NewLength(zIn: array?<char>, ghost before: string, zAppend: string, quote: char) returns (nIn: nat, len: nat)
    requires if zIn == null then before == "" else StandsAt(zIn, 0, before)
    requires NUL !in before
    ensures nIn == |before| && len == |before| + |Appended(zAppend, quote)| + 1
  {
    nIn := 0;
    if zIn != null {
      nIn := Strlen(zIn, before);
    }
    len := |zAppend| + nIn + 1;
    if quote != NUL {
      var quotes := CountQuotes(zAppend, quote);
      len := len + 2 + quotes;
    }
  }

  lemma {:induction false} DoubledHasNoNul(s: string, q: char)
    requires NUL !in s && q != NUL
    ensures NUL !in Doubled(s, q)
  {
    if s == "" {
    } else {
      assert s[0] in s;
      DoubledHasNoNul(s[1..], q);
    }
  }

  lemma AppendedHasNoNul(s: string, quote: char)
    requires NUL !in s
    ensures NUL !in Appended(s, quote)
  {
    if quote != NUL {
      DoubledHasNoNul(s, quote);
    }
  }

  /** The new text and its NUL, which end exactly where the buffer ends. */
  method FillBehind(z: array<char>, nIn: nat, zAppend: string, quote: char)
    requires z.Length == nIn + |Appended(zAppend, quote)| + 1
    modifies z
    ensures forall k | 0 <= k < nIn :: z[k] == old(z[k])
    ensures forall k | 0 <= k < |Appended(zAppend, quote)| :: z[nIn + k] == Appended(zAppend, quote)[k]
    ensures z[z.Length - 1] == NUL
  {
    if quote != NUL {
      var zCsr := WriteQuoted(z, nIn, zAppend, quote);
      z[zCsr] := NUL;
      zCsr := zCsr + 1;
      assert zCsr == z.Length;
    } else {
      forall k | 0 <= k < |zAppend| {
        z[nIn + k] := zAppend[k];
      }
      z[z.Length - 1] := NUL;
    }
  }

  lemma JoinStands(z: array<char>, a: string, b: string)
    requires |a| + |b| < z.Length && z[|a| + |b|] == NUL
    requires forall k | 0 <= k < |a| :: z[k] == a[k]
    requires forall k | 0 <= k < |b| :: z[|a| + k] == b[k]
    ensures StandsAt(z, 0, a + b)
  {
    forall k | 0 <= k < |a + b|
      ensures z[0 + k] == (a + b)[k]
    {
      assert k >= |a| ==> z[|a| + (k - |a|)] == b[k - |a|];
    }
  }

  /** The new buffer has exactly the size of the old text, the new one and a NUL. */
  method AppendText(zIn: array?<char>, ghost before: string, zAppend: string, quote: char)
    returns (z: array<char>, ghost text: string)
    requires if zIn == null then before == "" else StandsAt(zIn, 0, before)
    requires NUL !in before && NUL !in zAppend
    ensures text == before + Appended(zAppend, quote) && NUL !in text
    ensures fresh(z) && z.Length == |text| + 1 && StandsAt(z, 0, text)
  {
    text := before + Appended(zAppend, quote);
    var nIn, len := NewLength(zIn, before, zAppend, quote);
    z := new char[len](_ => NUL);
    forall k | 0 <= k < nIn {
      z[k] := zIn[k];
    }
    assert forall k | 0 <= k < nIn :: z[k] == before[k];
    FillBehind(z, nIn, zAppend, quote);
    JoinStands(z, before, Appended(zAppend, quote));
    AppendedHasNoNul(zAppend, quote);
  }

  // --------------------------------------------------------- building the query

  function TableInfoText(table: string): string {
    "PRAGMA table_info(" + Quote('"', table) + ");"
  }

  function Mark(columns: seq<string>, i: nat): string {
    if i + 1 < |columns| then ") || ',' || " else ") "
  }

  /** The query from column `i` on. */
  function SelectRest(table: string, columns: seq<string>, i: nat): string
    requires i <= |columns|
    decreases |columns| - i
  {
    if i == |columns| then "|| ')' FROM  " + Quote('"', table)
    else "quote(" + Quote('"', columns[i]) + Mark(columns, i) + SelectRest(table, columns, i + 1)
  }

  /** A SELECT that gives one INSERT statement for each row of the table. */
  function SelectText(table: string, columns: seq<string>): string {
    "SELECT 'INSERT INTO ' || " + Quote('\'', Quote('"', table)) + " || ' VALUES(' || " + SelectRest(table, columns, 0)
  }

  lemma SelectRestAt(done: string, table: string, columns: seq<string>, i: nat)
    requires i < |columns|
    ensures done + SelectRest(table, columns, i)
         == (done + "quote(" + Quote('"', columns[i]) + Mark(columns, i)) + SelectRest(table, columns, i + 1)
  {
    var q, m, rest := Quote('"', columns[i]), Mark(columns, i), SelectRest(table, columns, i + 1);
    AppendAssoc(done, "quote(" + q + m, rest);
    AppendAssoc(done, "quote(" + q, m);
    AppendAssoc(done, "quote(", q);
  }

  method BuildTableInfo(zTable: string) returns (z: array<char>)
    requires NUL !in zTable
    ensures StandsAt(z, 0, TableInfoText(zTable)) && z.Length == |TableInfoText(zTable)| + 1
  {
    ghost var text;
    z, text := AppendText(null, "", "PRAGMA table_info(", NUL);
    assert text == "PRAGMA table_info(";
    z, text := AppendText(z, text, zTable, '"');
    z, text := AppendText(z, text, ");", NUL);
  }

  /** Everything before the first column. */
  method BuildHead(zTable: string) returns (z: array<char>, ghost text: string)
    requires NUL !in zTable
    ensures NUL !in text && StandsAt(z, 0, text)
    ensures text == "SELECT 'INSERT INTO ' || " + Quote('\'', Quote('"', zTable)) + " || ' VALUES(' || "
  {
    z, text := AppendText(null, "", "SELECT 'INSERT INTO ' || ", NUL);
    assert text == "SELECT 'INSERT INTO ' || ";
    var zTmp, quoted := AppendText(null, "", zTable, '"');
    assert quoted == Quote('"', zTable);
    var tmp := StringAt(zTmp, 0, quoted);
    z, text := AppendText(z, text, tmp, '\'');
    z, text := AppendText(z, text, " || ' VALUES(' || ", NUL);
  }

  /** One column and what follows it. */
  method BuildColumn(zIn: array<char>, ghost before: string, columns: seq<string>, i: nat)
    returns (z: array<char>, ghost text: string)
    requires i < |columns| && NUL !in columns[i]
    requires NUL !in before && StandsAt(zIn, 0, before)
    ensures NUL !in text && StandsAt(z, 0, text)
    ensures text == before + "quote(" + Quote('"', columns[i]) + Mark(columns, i)
  {
    z, text := AppendText(zIn, before, "quote(", NUL);
    z, text := AppendText(z, text, columns[i], '"');
    if i + 1 < |columns| {
      z, text := AppendText(z, text, ") || ',' || ", NUL);
    } else {
      z, text := AppendText(z, text, ") ", NUL);
    }
  }

  method BuildSelect(zTable: string, columns: seq<string>) returns (z: array<char>)
    requires NUL !in zTable && forall k | 0 <= k < |columns| :: NUL !in columns[k]
    ensures StandsAt(z, 0, SelectText(zTable, columns)) && z.Length == |SelectText(zTable, columns)| + 1
  {
    ghost var text;
    z, text := BuildHead(zTable);
    for i := 0 to |columns|
      invariant NUL !in text && StandsAt(z, 0, text)
      invariant text + SelectRest(zTable, columns, i) == SelectText(zTable, columns)
    {
      SelectRestAt(text, zTable, columns, i);
      z, text := BuildColumn(z, text, columns, i);
    }
    AppendAssoc(text, "|| ')' FROM  ", Quote('"', zTable));
    z, text := AppendText(z, text, "|| ')' FROM  ", NUL);
    z, text := AppendText(z, text, zTable, '"');
  }

  // ---------------------------------------------------------- how it is read

  function MarkTokens(columns: seq<string>, i: nat): seq<Token> {
    if i + 1 < |columns| then [Concat, Literal(","), Concat] else []
  }

  /** The tokens from column `i` on. */
  function RestTokens(table: string, columns: seq<string>, i: nat): seq<Token>
    requires i <= |columns|
    decreases |columns| - i
  {
    if i == |columns| then [Concat, Literal(")"), Word("FROM"), Name(table)]
    else [Word("quote"), Sym('('), Name(columns[i]), Sym(')')] + MarkTokens(columns, i) + RestTokens(table, columns, i + 1)
  }

  /** The tokens that the query is meant to have. */
  function SelectTokens(table: string, columns: seq<string>): seq<Token> {
    [Word("SELECT"), Literal("INSERT INTO "), Concat] + [Literal(Quote('"', table))]
    + [Concat, Literal(" VALUES("), Concat] + RestTokens(table, columns, 0)
  }

  lemma SpellStart(w: string)
    requires Valid(Tok(Word(w)))
    ensures Spells(w + " ", [Word(w)], Tok(Word(w)), Gap)
  {
    SpellOne(Tok(Word(w)));
    SpellOne(Gap);
    SpellBoth(w, [Word(w)], Tok(Word(w)), Tok(Word(w)), " ", [], Gap, Gap);
    assert [Word(w)] + [] == [Word(w)];
  }

  /** A word, a string literal and a concatenation mark. */
  lemma SpellWordLiteral(w: string, s: string)
    requires Valid(Tok(Word(w))) && '\'' !in s
    ensures Spells(w + " " + ("'" + s + "'") + " " + "||" + " ", [Word(w), Literal(s), Concat], Tok(Word(w)), Gap)
  {
    SpellStart(w);
    SpellPlain(w + " ", [Word(w)], Tok(Word(w)), s);
    SpellConcat(w + " " + ("'" + s + "'") + " ", [Word(w)] + [Literal(s)], Tok(Word(w)));
    assert [Word(w)] + [Literal(s)] + [Concat] == [Word(w), Literal(s), Concat];
  }

  /** A string literal between concatenation marks. */
  lemma SpellBetween(s: string)
    requires '\'' !in s
    ensures Spells(" " + "||" + " " + ("'" + s + "'") + " " + "||" + " ", [Concat, Literal(s), Concat], Gap, Gap)
  {
    SpellOne(Gap);
    SpellConcat(" ", [], Gap);
    assert [] + [Concat] == [Concat];
    SpellPlain(" " + "||" + " ", [Concat], Gap, s);
    SpellConcat(" " + "||" + " " + ("'" + s + "'") + " ", [Concat] + [Literal(s)], Gap);
    assert [Concat] + [Literal(s)] + [Concat] == [Concat, Literal(s), Concat];
  }

  lemma SelectHead()
    ensures "SELECT" + " " + ("'" + "INSERT INTO " + "'") + " " + "||" + " " == "SELECT 'INSERT INTO ' || "
  {
  }

  lemma SelectSpelled()
    ensures Spells("SELECT 'INSERT INTO ' || ", [Word("SELECT"), Literal("INSERT INTO "), Concat], Tok(Word("SELECT")), Gap)
  {
    SpellWordLiteral("SELECT", "INSERT INTO ");
    SelectHead();
  }

  lemma ValuesSpelled()
    ensures Spells(" || ' VALUES(' || ", [Concat, Literal(" VALUES("), Concat], Gap, Gap)
  {
    SpellBetween(" VALUES(");
    assert " " + "||" + " " + ("'" + " VALUES(" + "'") + " " + "||" + " " == " || ' VALUES(' || ";
  }

  lemma CommaSpelled()
    ensures Spells(" || ',' || ", [Concat, Literal(","), Concat], Gap, Gap)
  {
    SpellBetween(",");
    assert " " + "||" + " " + ("'" + "," + "'") + " " + "||" + " " == " || ',' || ";
  }

  lemma MarkSpelled(columns: seq<string>, i: nat)
    ensures Spells(Mark(columns, i), [Sym(')')] + MarkTokens(columns, i), Tok(Sym(')')), Gap)
  {
    var close := Sym(')');
    SpellOne(Tok(close));
    if i + 1 < |columns| {
      CommaSpelled();
      SpellBoth(")", [close], Tok(close), Tok(close), " || ',' || ", [Concat, Literal(","), Concat], Gap, Gap);
      assert ")" + " || ',' || " == ") || ',' || ";
    } else {
      SpellOne(Gap);
      SpellBoth(")", [close], Tok(close), Tok(close), " ", [], Gap, Gap);
      assert ")" + " " == ") ";
    }
  }

  lemma SpellEnd(s: string, w: string, name: string)
    requires Valid(Tok(Word(w))) && '\'' !in s
    ensures Spells("||" + " " + ("'" + s + "'") + " " + (w + " ") + " " + Quote('"', name),
                   [Concat, Literal(s), Word(w), Name(name)], Tok(Concat), Tok(Name(name)))
  {
    var c := Tok(Concat);
    SpellOne(c);
    SpellOne(Gap);
    SpellBoth("||", [Concat], c, c, " ", [], Gap, Gap);
    assert [Concat] + [] == [Concat];
    SpellPlain("||" + " ", [Concat], c, s);
    SpellStart(w);
    SpellBoth("||" + " " + ("'" + s + "'") + " ", [Concat] + [Literal(s)], c, Gap, w + " ", [Word(w)], Tok(Word(w)), Gap);
    SpellBoth("||" + " " + ("'" + s + "'") + " " + (w + " "), [Concat] + [Literal(s)] + [Word(w)], c, Gap, " ", [], Gap, Gap);
    SpellOne(Tok(Name(name)));
    SpellBoth("||" + " " + ("'" + s + "'") + " " + (w + " ") + " ", [Concat] + [Literal(s)] + [Word(w)] + [], c, Gap,
              Quote('"', name), [Name(name)], Tok(Name(name)), Tok(Name(name)));
    assert [Concat] + [Literal(s)] + [Word(w)] + [] + [Name(name)] == [Concat, Literal(s), Word(w), Name(name)];
  }

  lemma TailSpelled(table: string)
    ensures Spells("|| ')' FROM  " + Quote('"', table), [Concat, Literal(")"), Word("FROM"), Name(table)],
                   Tok(Concat), Tok(Name(table)))
  {
    SpellEnd(")", "FROM", table);
    assert "||" + " " + ("'" + ")" + "'") + " " + ("FROM" + " ") + " " == "|| ')' FROM  ";
  }

  /** Two words and a symbol. */
  lemma SpellCall(v: string, w: string, c: char)
    requires Valid(Tok(Word(v))) && Valid(Tok(Word(w))) && Valid(Tok(Sym(c)))
    ensures Spells(v + " " + w + [c], [Word(v), Word(w), Sym(c)], Tok(Word(v)), Tok(Sym(c)))
  {
    SpellStart(v);
    SpellOne(Tok(Word(w)));
    SpellOne(Tok(Sym(c)));
    SpellBoth(v + " ", [Word(v)], Tok(Word(v)), Gap, w, [Word(w)], Tok(Word(w)), Tok(Word(w)));
    SpellBoth(v + " " + w, [Word(v)] + [Word(w)], Tok(Word(v)), Tok(Word(w)), [c], [Sym(c)], Tok(Sym(c)), Tok(Sym(c)));
    assert [Word(v)] + [Word(w)] + [Sym(c)] == [Word(v), Word(w), Sym(c)];
  }

  lemma InfoHead()
    ensures "PRAGMA" + " " + "table_info" + ['('] == "PRAGMA table_info("
  {
  }

  lemma InfoSpelled()
    ensures Spells("PRAGMA table_info(", [Word("PRAGMA"), Word("table_info"), Sym('(')], Tok(Word("PRAGMA")), Tok(Sym('(')))
  {
    SpellCall("PRAGMA", "table_info", '(');
    InfoHead();
  }

  lemma CloseSpelled()
    ensures Spells(");", [Sym(')'), Sym(';')], Tok(Sym(')')), Tok(Sym(';')))
  {
    var close, end := Sym(')'), Sym(';');
    SpellOne(Tok(close));
    SpellOne(Tok(end));
    SpellBoth(")", [close], Tok(close), Tok(close), ";", [end], Tok(end), Tok(end));
    assert ")" + ";" == ");" && [close] + [end] == [close, end];
  }

  lemma QuotedBetween(head: string, tokens: seq<Token>, first: Lexeme, x: Lexeme, name: string,
                      tail: string, more: seq<Token>, y: Lexeme, last: Lexeme)
    requires Spells(head, tokens, first, x) && Spells(tail, more, y, last)
    requires Apart(x, Tok(Name(name))) && Apart(Tok(Name(name)), y)
    ensures Lex(head + Quote('"', name) + tail, 0) == tokens + [Name(name)] + more
  {
    var n := Tok(Name(name));
    SpellOne(n);
    SpellBoth(head, tokens, first, x, Quote('"', name), [Name(name)], n, n);
    SpellBoth(head + Quote('"', name), tokens + [Name(name)], first, n, tail, more, y, last);
    LexSpelled(head + Quote('"', name) + tail, tokens + [Name(name)] + more, first, last);
  }

  /** The query for the columns of a table is read as it is meant, whatever the name. */
  lemma TableInfoIsRead(table: string)
    ensures Lex(TableInfoText(table), 0)
         == [Word("PRAGMA"), Word("table_info"), Sym('(')] + [Name(table)] + [Sym(')'), Sym(';')]
  {
    InfoSpelled();
    CloseSpelled();
    QuotedBetween("PRAGMA table_info(", [Word("PRAGMA"), Word("table_info"), Sym('(')], Tok(Word("PRAGMA")), Tok(Sym('(')),
                  table, ");", [Sym(')'), Sym(';')], Tok(Sym(')')), Tok(Sym(';')));
  }

  /** A word, a symbol and a quoted name. */
  lemma SpellApply(w: string, c: char, name: string)
    requires Valid(Tok(Word(w))) && Valid(Tok(Sym(c)))
    ensures Spells(w + [c] + Quote('"', name), [Word(w), Sym(c), Name(name)], Tok(Word(w)), Tok(Name(name)))
  {
    SpellOne(Tok(Word(w)));
    SpellOne(Tok(Sym(c)));
    SpellOne(Tok(Name(name)));
    SpellBoth(w, [Word(w)], Tok(Word(w)), Tok(Word(w)), [c], [Sym(c)], Tok(Sym(c)), Tok(Sym(c)));
    SpellBoth(w + [c], [Word(w)] + [Sym(c)], Tok(Word(w)), Tok(Sym(c)), Quote('"', name), [Name(name)],
              Tok(Name(name)), Tok(Name(name)));
    assert [Word(w)] + [Sym(c)] + [Name(name)] == [Word(w), Sym(c), Name(name)];
  }

  lemma QuoteCall()
    ensures "quote" + ['('] == "quote("
  {
  }

  lemma ColumnSpelled(columns: seq<string>, i: nat)
    requires i < |columns|
    ensures Spells("quote(" + Quote('"', columns[i]) + Mark(columns, i),
                   [Word("quote"), Sym('('), Name(columns[i]), Sym(')')] + MarkTokens(columns, i), Tok(Word("quote")), Gap)
  {
    var head := [Word("quote"), Sym('('), Name(columns[i])];
    QuoteCall();
    SpellApply("quote", '(', columns[i]);
    MarkSpelled(columns, i);
    SpellBoth("quote(" + Quote('"', columns[i]), head, Tok(Word("quote")), Tok(Name(columns[i])),
              Mark(columns, i), [Sym(')')] + MarkTokens(columns, i), Tok(Sym(')')), Gap);
    assert head + ([Sym(')')] + MarkTokens(columns, i))
        == [Word("quote"), Sym('('), Name(columns[i]), Sym(')')] + MarkTokens(columns, i);
  }

  function RestFirst(columns: seq<string>, i: nat): Lexeme {
    if i < |columns| then Tok(Word("quote")) else Tok(Concat)
  }

  lemma {:induction false} RestSpelled(table: string, columns: seq<string>, i: nat)
    requires i <= |columns|
    ensures Spells(SelectRest(table, columns, i), RestTokens(table, columns, i), RestFirst(columns, i), Tok(Name(table)))
    decreases |columns| - i
  {
    if i == |columns| {
      TailSpelled(table);
    } else {
      ColumnSpelled(columns, i);
      RestSpelled(table, columns, i + 1);
      SpellBoth("quote(" + Quote('"', columns[i]) + Mark(columns, i),
                [Word("quote"), Sym('('), Name(columns[i]), Sym(')')] + MarkTokens(columns, i), Tok(Word("quote")), Gap,
                SelectRest(table, columns, i + 1), RestTokens(table, columns, i + 1),
                RestFirst(columns, i + 1), Tok(Name(table)));
    }
  }

  /** The query is read as the tokens it is meant to have; its second string literal,
      read in turn, is the name of the table. */
  lemma SelectIsRead(table: string, columns: seq<string>)
    ensures Lex(SelectText(table, columns), 0) == SelectTokens(table, columns)
    ensures Lex(Quote('"', table), 0) == [Name(table)]
  {
    var word, q := Tok(Word("SELECT")), Literal(Quote('"', table));
    var head := [Word("SELECT"), Literal("INSERT INTO "), Concat];
    var values := [Concat, Literal(" VALUES("), Concat];
    var text := "SELECT 'INSERT INTO ' || " + Quote('\'', Quote('"', table));
    SelectSpelled();
    SpellOne(Tok(q));
    SpellBoth("SELECT 'INSERT INTO ' || ", head, word, Gap, Quote('\'', Quote('"', table)), [q], Tok(q), Tok(q));
    ValuesSpelled();
    SpellBoth(text, head + [q], word, Tok(q), " || ' VALUES(' || ", values, Gap, Gap);
    RestSpelled(table, columns, 0);
    SpellBoth(text + " || ' VALUES(' || ", head + [q] + values, word, Gap,
              SelectRest(table, columns, 0), RestTokens(table, columns, 0), RestFirst(columns, 0), Tok(Name(table)));
    LexSpelled(SelectText(table, columns), SelectTokens(table, columns), word, Tok(Name(table)));
    SpellOne(Tok(Name(table)));
    LexSpelled(Quote('"', table), [Name(table)], Tok(Name(table)), Tok(Name(table)));
  }

  // ---------------------------------------------------------- what it computes

  /** An operand of a concatenation. */
  datatype Part = Constant(text: string) | Quoted(column: string)

  /** The operand at the front of the tokens and what is behind it. */
  function ReadPart(ts: seq<Token>): (r: Option<(Part, seq<Token>)>)
    ensures r.Some? ==> |r.value.1| < |ts|
  {
    if |ts| > 0 && ts[0].Literal? then Some((Constant(ts[0].value), ts[1..]))
    else if |ts| > 3 && ts[0] == Word("quote") && ts[1] == Sym('(') && ts[2].Name? && ts[3] == Sym(')') then
      Some((Quoted(ts[2].name), ts[4..]))
    else None
  }

  function Before(p: Part, r: Option<(seq<Part>, seq<Token>)>): Option<(seq<Part>, seq<Token>)> {
    if r.None? then None else Some(([p] + r.value.0, r.value.1))
  }

  /** Operands with concatenation marks between them. */
  function ReadParts(ts: seq<Token>): Option<(seq<Part>, seq<Token>)>
    decreases |ts|
  {
    match ReadPart(ts)
    case None => None
    case Some(r) =>
      if r.1 != [] && r.1[0].Concat? then Before(r.0, ReadParts(r.1[1..])) else Some(([r.0], r.1))
  }

  /** SELECT, one concatenation, FROM and the name of a table. */
  function ReadQuery(ts: seq<Token>): Option<(seq<Part>, string)> {
    if ts == [] || ts[0] != Word("SELECT") then None
    else match ReadParts(ts[1..])
         case None => None
         case Some(r) =>
           if |r.1| == 2 && r.1[0] == Word("FROM") && r.1[1].Name? then Some((r.0, r.1[1].name)) else None
  }

  function PartValue(p: Part, quote: string -> string): string {
    match p
    case Constant(s) => s
    case Quoted(c) => quote(c)
  }

  /** The value of a concatenation for a row whose columns are quoted by `quote`. */
  function Evaluated(parts: seq<Part>, quote: string -> string): string {
    if parts == [] then "" else PartValue(parts[0], quote) + Evaluated(parts[1..], quote)
  }

  lemma EvaluatedStep(p: Part, parts: seq<Part>, quote: string -> string)
    ensures Evaluated([p] + parts, quote) == PartValue(p, quote) + Evaluated(parts, quote)
  {
    assert ([p] + parts)[1..] == parts;
  }

  /** The operands from column `i` on. */
  function RestParts(columns: seq<string>, i: nat): seq<Part>
    requires i <= |columns|
    decreases |columns| - i
  {
    if i == |columns| then [Constant(")")]
    else [Quoted(columns[i])] + ((if i + 1 < |columns| then [Constant(",")] else []) + RestParts(columns, i + 1))
  }

  function QueryParts(table: string, columns: seq<string>): seq<Part> {
    [Constant("INSERT INTO ")] + ([Constant(Quote('"', table))] + ([Constant(" VALUES(")] + RestParts(columns, 0)))
  }

  /** The quoted values from column `i` on, with commas between, and a parenthesis. */
  function RowText(columns: seq<string>, i: nat, quote: string -> string): string
    requires i <= |columns|
    decreases |columns| - i
  {
    if i == |columns| then ")"
    else quote(columns[i]) + ((if i + 1 < |columns| then "," else "") + RowText(columns, i + 1, quote))
  }

  lemma ReadConstant(s: string, rest: seq<Token>)
    ensures ReadParts([Literal(s), Concat] + rest) == Before(Constant(s), ReadParts(rest))
  {
    var ts := [Literal(s), Concat] + rest;
    assert ts[1..] == [Concat] + rest && ts[1..][1..] == rest;
  }

  lemma ReadQuoted(c: string, rest: seq<Token>)
    ensures ReadParts([Word("quote"), Sym('('), Name(c), Sym(')'), Concat] + rest) == Before(Quoted(c), ReadParts(rest))
  {
    var ts := [Word("quote"), Sym('('), Name(c), Sym(')'), Concat] + rest;
    assert ts[4..] == [Concat] + rest && ts[4..][1..] == rest;
  }

  lemma ReadTail(table: string)
    ensures ReadParts([Literal(")"), Word("FROM"), Name(table)]) == Some(([Constant(")")], [Word("FROM"), Name(table)]))
  {
    var ts := [Literal(")"), Word("FROM"), Name(table)];
    assert ts[1..] == [Word("FROM"), Name(table)];
  }

  lemma {:induction false} ReadRest(table: string, columns: seq<string>, i: nat)
    requires i < |columns|
    ensures ReadParts(RestTokens(table, columns, i)) == Some((RestParts(columns, i), [Word("FROM"), Name(table)]))
    decreases |columns| - i
  {
    var column := [Word("quote"), Sym('('), Name(columns[i]), Sym(')')];
    var next := RestTokens(table, columns, i + 1);
    if i + 1 < |columns| {
      calc {
        ReadParts(column + [Concat, Literal(","), Concat] + next);
        { assert column + [Concat, Literal(","), Concat]
              == [Word("quote"), Sym('('), Name(columns[i]), Sym(')'), Concat] + [Literal(","), Concat];
          TokensAssoc([Word("quote"), Sym('('), Name(columns[i]), Sym(')'), Concat], [Literal(","), Concat], next); }
        ReadParts([Word("quote"), Sym('('), Name(columns[i]), Sym(')'), Concat] + ([Literal(","), Concat] + next));
        { ReadQuoted(columns[i], [Literal(","), Concat] + next); }
        Before(Quoted(columns[i]), ReadParts([Literal(","), Concat] + next));
        { ReadConstant(",", next); }
        Before(Quoted(columns[i]), Before(Constant(","), ReadParts(next)));
        { ReadRest(table, columns, i + 1); }
        Some((RestParts(columns, i), [Word("FROM"), Name(table)]));
      }
    } else {
      var tail := [Literal(")"), Word("FROM"), Name(table)];
      calc {
        ReadParts(column + [] + next);
        { assert column + [] + next == [Word("quote"), Sym('('), Name(columns[i]), Sym(')'), Concat] + tail; }
        ReadParts([Word("quote"), Sym('('), Name(columns[i]), Sym(')'), Concat] + tail);
        { ReadQuoted(columns[i], tail); }
        Before(Quoted(columns[i]), ReadParts(tail));
        { ReadTail(table); assert [] + RestParts(columns, i + 1) == [Constant(")")]; }
        Some((RestParts(columns, i), [Word("FROM"), Name(table)]));
      }
    }
  }

  /** The tokens after SELECT, from the rest on. */
  lemma ReadHead(table: string, rest: seq<Token>)
    ensures ReadParts(([Literal("INSERT INTO "), Concat] + ([Literal(Quote('"', table)), Concat]
                       + ([Literal(" VALUES("), Concat] + rest))))
         == Before(Constant("INSERT INTO "), Before(Constant(Quote('"', table)), Before(Constant(" VALUES("), ReadParts(rest))))
  {
    ReadConstant(" VALUES(", rest);
    ReadConstant(Quote('"', table), [Literal(" VALUES("), Concat] + rest);
    ReadConstant("INSERT INTO ", [Literal(Quote('"', table)), Concat] + ([Literal(" VALUES("), Concat] + rest));
  }

  lemma SelectTokensParts(table: string, columns: seq<string>)
    ensures SelectTokens(table, columns) == [Word("SELECT")] + ([Literal("INSERT INTO "), Concat]
      + ([Literal(Quote('"', table)), Concat] + ([Literal(" VALUES("), Concat] + RestTokens(table, columns, 0))))
  {
  }

  /** The query makes sense exactly if there are columns; then it reads the table and
      concatenates the pieces of an INSERT statement. */
  lemma SelectMeans(table: string, columns: seq<string>)
    ensures ReadQuery(Lex(SelectText(table, columns), 0))
         == if columns == [] then None else Some((QueryParts(table, columns), table))
  {
    var rest := RestTokens(table, columns, 0);
    var tokens := [Literal("INSERT INTO "), Concat] + ([Literal(Quote('"', table)), Concat]
                  + ([Literal(" VALUES("), Concat] + rest));
    SelectIsRead(table, columns);
    SelectTokensParts(table, columns);
    assert ([Word("SELECT")] + tokens)[1..] == tokens;
    ReadHead(table, rest);
    if columns != [] {
      ReadRest(table, columns, 0);
    }
  }

  lemma EvaluatedMark(more: bool, parts: seq<Part>, quote: string -> string)
    ensures Evaluated((if more then [Constant(",")] else []) + parts, quote)
         == (if more then "," else "") + Evaluated(parts, quote)
  {
    EvaluatedStep(Constant(","), parts, quote);
    assert [] + parts == parts && "" + Evaluated(parts, quote) == Evaluated(parts, quote);
  }

  lemma {:induction false} EvaluatedRest(columns: seq<string>, i: nat, quote: string -> string)
    requires i <= |columns|
    ensures Evaluated(RestParts(columns, i), quote) == RowText(columns, i, quote)
    decreases |columns| - i
  {
    if i == |columns| {
      EvaluatedStep(Constant(")"), [], quote);
      assert [Constant(")")] + [] == [Constant(")")];
    } else {
      var mark := if i + 1 < |columns| then [Constant(",")] else [];
      EvaluatedRest(columns, i + 1, quote);
      EvaluatedMark(i + 1 < |columns|, RestParts(columns, i + 1), quote);
      EvaluatedStep(Quoted(columns[i]), mark + RestParts(columns, i + 1), quote);
    }
  }

  /** For each row the query gives the INSERT statement for that row: the quoted table
      name, and the quoted values in order with commas between. */
  lemma SelectGives(table: string, columns: seq<string>, quote: string -> string)
    requires columns != []
    ensures var query := ReadQuery(Lex(SelectText(table, columns), 0));
      && query.Some? && query.value.1 == table
      && Evaluated(query.value.0, quote)
         == "INSERT INTO " + (Quote('"', table) + (" VALUES(" + RowText(columns, 0, quote)))
  {
    var rest := RestParts(columns, 0);
    SelectMeans(table, columns);
    EvaluatedRest(columns, 0, quote);
    EvaluatedStep(Constant(" VALUES("), rest, quote);
    EvaluatedStep(Constant(Quote('"', table)), [Constant(" VALUES(")] + rest, quote);
    EvaluatedStep(Constant("INSERT INTO "), [Constant(Quote('"', table))] + ([Constant(" VALUES(")] + rest), quote);
  }
}
