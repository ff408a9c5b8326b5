/** Tokens of SQL text, as far as the sqlite shell writes it, and texts that are
    sure to be read as the tokens they were made of. */
module SqlLexer {
  import opened CText
  import opened Wrappers

  datatype Token = Word(text: string) | Literal(value: string) | Name(name: string) | Concat | Sym(c: char) | Bad

  /** The token that begins at `i` and the index behind it. */
  function TokenAt(t: string, i: nat): (r: (Token, nat))
    requires i < |t|
    ensures i < r.1 <= |t|
  {
    if IsNameByte(t[i]) then (Word(t[i..NameEnd(t, i)]), NameEnd(t, i))
    else if t[i] == '\'' || t[i] == '"' then
      match Unquoted(t, i + 1, t[i])
      case None => (Bad, |t|)
      case Some(s) => (if t[i] == '\'' then Literal(s.0) else Name(s.0), s.1)
    else if At(t, i, "||") then (Concat, i + 2)
    else (Sym(t[i]), i + 1)
  }

  /** The tokens from index `i` on. */
  function Lex(t: string, i: nat): seq<Token>
    requires i <= |t|
    decreases |t| - i
  {
    if i == |t| then []
    else if t[i] == ' ' then Lex(t, i + 1)
    else [TokenAt(t, i).0] + Lex(t, TokenAt(t, i).1)
  }

  // ------------------------------------------------------------ writing tokens

  datatype Lexeme = Gap | Tok(token: Token)

  function Text(l: Lexeme): string {
    match l
    case Gap => " "
    case Tok(Word(w)) => w
    case Tok(Literal(s)) => Quote('\'', s)
    case Tok(Name(s)) => Quote('"', s)
    case Tok(Concat) => "||"
    case Tok(Sym(c)) => [c]
    case Tok(Bad) => ""
  }

  predicate Valid(l: Lexeme) {
    match l
    case Tok(Word(w)) => w != "" && forall k | 0 <= k < |w| :: IsNameByte(w[k])
    case Tok(Sym(c)) => c == '(' || c == ')' || c == ';'
    case Tok(Bad) => false
    case _ => true
  }

  /** May the second follow the first without a blank? */
  predicate Apart(x: Lexeme, y: Lexeme) {
    x.Tok? && y.Tok? ==>
      && !(x.token.Word? && y.token.Word?)
      && !(x.token.Literal? && y.token.Literal?)
      && !(x.token.Name? && y.token.Name?)
  }

  function TokenOf(l: Lexeme): seq<Token> {
    if l.Gap? then [] else [l.token]
  }

  /** A text put together from lexemes. */
  datatype Doc = One(l: Lexeme) | Both(a: Doc, b: Doc)

  function Printed(d: Doc): string {
    match d
    case One(l) => Text(l)
    case Both(a, b) => Printed(a) + Printed(b)
  }

  function Tokens(d: Doc): seq<Token> {
    match d
    case One(l) => TokenOf(l)
    case Both(a, b) => Tokens(a) + Tokens(b)
  }

  function First(d: Doc): Lexeme {
    if d.One? then d.l else First(d.a)
  }

  function Last(d: Doc): Lexeme {
    if d.One? then d.l else Last(d.b)
  }

  predicate WellSpaced(d: Doc) {
    match d
    case One(l) => Valid(l)
    case Both(a, b) => WellSpaced(a) && WellSpaced(b) && Apart(Last(a), First(b))
  }

  /** A byte that ends the lexeme before it. */
  predicate Ends(x: Lexeme, c: char) {
    match x
    case Tok(Word(_)) => !IsNameByte(c)
    case Tok(Literal(_)) => c != '\''
    case Tok(Name(_)) => c != '"'
    case _ => true
  }

  lemma FirstByte(x: Lexeme, y: Lexeme)
    requires Valid(y) && Apart(x, y)
    ensures Text(y) != "" && Ends(x, Text(y)[0])
  {
  }

  lemma LexWord(t: string, i: nat, w: string)
    requires Valid(Tok(Word(w))) && At(t, i, w)
    requires i + |w| < |t| ==> !IsNameByte(t[i + |w|])
    ensures Lex(t, i) == [Word(w)] + Lex(t, i + |w|)
  {
    AtHead(t, i, w);
    forall j | i <= j < i + |w|
      ensures IsNameByte(t[j])
    {
      assert t[i + (j - i)] == w[j - i];
    }
    NameEndIs(t, i, i + |w|);
    assert t[i..i + |w|] == w;
  }

  lemma LexSym(t: string, i: nat, l: Lexeme)
    requires Valid(l) && (l.Gap? || l.token.Sym? || l.token.Concat?) && At(t, i, Text(l))
    ensures Lex(t, i) == TokenOf(l) + Lex(t, i + |Text(l)|)
  {
    AtHead(t, i, Text(l));
    if l.Tok? && l.token.Sym? && At(t, i, "||") {
      AtHead(t, i, "||");
    }
  }

  lemma LexQuoted(t: string, i: nat, s: string, q: char)
    requires (q == '\'' || q == '"') && At(t, i, Quote(q, s))
    requires var k := i + |Quote(q, s)|; k < |t| ==> t[k] != q
    ensures Lex(t, i) == [if q == '\'' then Literal(s) else Name(s)] + Lex(t, i + |Quote(q, s)|)
  {
    QuoteBack(t, i, s, q);
  }

  lemma LexOne(t: string, i: nat, l: Lexeme)
    requires Valid(l) && At(t, i, Text(l))
    requires var k := i + |Text(l)|; k < |t| ==> Ends(l, t[k])
    ensures Lex(t, i) == TokenOf(l) + Lex(t, i + |Text(l)|)
  {
    match l
    case Tok(Word(w)) => LexWord(t, i, w);
    case Tok(Literal(s)) => LexQuoted(t, i, s, '\'');
    case Tok(Name(s)) => LexQuoted(t, i, s, '"');
    case _ => LexSym(t, i, l);
  }

  lemma {:induction false} PrintedStart(d: Doc)
    requires WellSpaced(d)
    ensures Printed(d) != "" && Text(First(d)) <= Printed(d) && Valid(First(d)) && Text(First(d)) != ""
  {
    match d
    case One(l) => FirstByte(Gap, l);
    case Both(a, b) => PrintedStart(a);
  }

  /** The second half begins with a byte that ends the first. */
  lemma {:induction false} Boundary(t: string, i: nat, a: Doc, b: Doc)
    requires WellSpaced(Both(a, b)) && At(t, i, Printed(a) + Printed(b))
    ensures var j := i + |Printed(a)|;
      At(t, i, Printed(a)) && At(t, j, Printed(b)) && j < |t| && Ends(Last(a), t[j])
  {
    AtConcat(t, i, Printed(a), Printed(b));
    PrintedStart(b);
    FirstByte(Last(a), First(b));
    AtHead(t, i + |Printed(a)|, Printed(b));
  }

  lemma TokensAssoc(a: seq<Token>, b: seq<Token>, c: seq<Token>)
    ensures a + (b + c) == (a + b) + c
  {
  }

  /** From `i` up to `j` the text is read as the tokens. */
  ghost predicate Reads(t: string, i: nat, j: nat, tokens: seq<Token>) {
    i <= j <= |t| && Lex(t, i) == tokens + Lex(t, j)
  }

  lemma ReadsOn(t: string, i: nat, j: nat, k: nat, a: seq<Token>, b: seq<Token>)
    requires Reads(t, i, j, a) && Reads(t, j, k, b)
    ensures Reads(t, i, k, a + b)
  {
    TokensAssoc(a, b, Lex(t, k));
  }

  lemma ReadsOne(t: string, i: nat, l: Lexeme)
    requires Valid(l) && At(t, i, Text(l))
    requires var k := i + |Text(l)|; k < |t| ==> Ends(l, t[k])
    ensures Reads(t, i, i + |Text(l)|, TokenOf(l))
  {
    LexOne(t, i, l);
  }

  /** A well spaced text is read back as the tokens it stands for. */
  lemma {:induction false} LexPrinted(t: string, i: nat, d: Doc)
    requires WellSpaced(d) && At(t, i, Printed(d))
    requires var k := i + |Printed(d)|; k < |t| ==> Ends(Last(d), t[k])
    ensures Reads(t, i, i + |Printed(d)|, Tokens(d))
    decreases d
  {
    match d
    case One(l) => ReadsOne(t, i, l);
    case Both(a, b) =>
      var j := i + |Printed(a)|;
      Boundary(t, i, a, b);
      LexPrinted(t, i, a);
      LexPrinted(t, j, b);
      ReadsOn(t, i, j, j + |Printed(b)|, Tokens(a), Tokens(b));
  }

  // -------------------------------------------------------- texts and tokens

  ghost predicate IsDoc(d: Doc, text: string, tokens: seq<Token>, first: Lexeme, last: Lexeme) {
    WellSpaced(d) && Printed(d) == text && Tokens(d) == tokens && First(d) == first && Last(d) == last
  }

  /** Some well spaced document, from `first` to `last`, is the text and stands for
      the tokens. */
  ghost predicate Spells(text: string, tokens: seq<Token>, first: Lexeme, last: Lexeme) {
    exists d: Doc :: IsDoc(d, text, tokens, first, last)
  }

  lemma SpellOne(l: Lexeme)
    requires Valid(l)
    ensures Spells(Text(l), TokenOf(l), l, l)
  {
    assert IsDoc(One(l), Text(l), TokenOf(l), l, l);
  }

  lemma SpellBoth(a: string, k: seq<Token>, f: Lexeme, x: Lexeme, b: string, m: seq<Token>, y: Lexeme, l: Lexeme)
    requires Spells(a, k, f, x) && Spells(b, m, y, l) && Apart(x, y)
    ensures Spells(a + b, k + m, f, l)
  {
    var u: Doc :| IsDoc(u, a, k, f, x);
    var v: Doc :| IsDoc(v, b, m, y, l);
    assert IsDoc(Both(u, v), a + b, k + m, f, l);
  }

  /** One more token and a blank. */
  lemma SpellSpaced(a: string, k: seq<Token>, f: Lexeme, x: Lexeme, token: Token)
    requires Spells(a, k, f, x) && Valid(Tok(token)) && Apart(x, Tok(token))
    ensures Spells(a + Text(Tok(token)) + " ", k + [token], f, Gap)
  {
    SpellOne(Tok(token));
    SpellBoth(a, k, f, x, Text(Tok(token)), [token], Tok(token), Tok(token));
    SpellOne(Gap);
    SpellBoth(a + Text(Tok(token)), k + [token], f, Tok(token), " ", [], Gap, Gap);
    assert k + [token] + [] == k + [token];
  }

  /** A string literal that needs no doubling, and a blank. */
  lemma SpellPlain(a: string, k: seq<Token>, f: Lexeme, s: string)
    requires Spells(a, k, f, Gap) && '\'' !in s
    ensures Spells(a + ("'" + s + "'") + " ", k + [Literal(s)], f, Gap)
  {
    DoubledPlain(s, '\'');
    assert Text(Tok(Literal(s))) == "'" + s + "'";
    SpellSpaced(a, k, f, Gap, Literal(s));
  }

  lemma SpellConcat(a: string, k: seq<Token>, f: Lexeme)
    requires Spells(a, k, f, Gap)
    ensures Spells(a + "||" + " ", k + [Concat], f, Gap)
  {
    SpellSpaced(a, k, f, Gap, Concat);
  }

  lemma LexSpelled(text: string, tokens: seq<Token>, f: Lexeme, l: Lexeme)
    requires Spells(text, tokens, f, l)
    ensures Lex(text, 0) == tokens
  {
    var d: Doc :| IsDoc(d, text, tokens, f, l);
    LexPrinted(text, 0, d);
    assert tokens + [] == tokens;
  }
}
