/** C-style quoting of the sqlite shell and its two readers, the in-place
    unescaper and the meta-command tokeniser (sqlite/shell.c). */
module ShellEscapes {
  import opened CText

  // ----------------------------------------------------------------- writing

  function Octal(n: int): char
    requires 0 <= n < 8
  {
    '0' + n as char
  }

  /** One byte as `output_c_string` writes it. */
  function Escaped(c: char): string {
    var n := c as int % 256;
    if c == '\\' then "\\\\"
    else if c == '\t' then "\\t"
    else if c == '\n' then "\\n"
    else if c == '\r' then "\\r"
    else if !IsPrint(c) then
      ['\\', Octal(n / 64), Octal(n / 8 % 8), Octal(n % 8)]
    else [c]
  }

  function EscapedText(z: string): string {
    if z == "" then "" else Escaped(z[0]) + EscapedText(z[1..])
  }

  function CQuoted(z: string): string {
    "\"" + EscapedText(z) + "\""
  }

  method PutEscaped(out: Output, c: char)
    modifies out
    ensures out.text == old(out.text) + Escaped(c)
  {
    if c == '\\' {
      out.Put([c]);
      out.Put([c]);
    } else if c == '\t' {
      out.Put("\\");
      out.Put("t");
    } else if c == '\n' {
      out.Put("\\");
      out.Put("n");
    } else if c == '\r' {
      out.Put("\\");
      out.Put("r");
    } else if !IsPrint(c) {
      var n := c as int % 256;
      out.Put(['\\', Octal(n / 64), Octal(n / 8 % 8), Octal(n % 8)]);
    } else {
      out.Put([c]);
    }
  }

  lemma EscapedTextAt(z: string, i: nat)
    requires i < |z|
    ensures EscapedText(z[i..]) == Escaped(z[i]) + EscapedText(z[i + 1..])
  {
    assert z[i..][1..] == z[i + 1..];
  }

  /** One byte of the text; `rest` is what is still to be printed. */
  method PutNext(out: Output, c: char, ghost rest: string)
    modifies out
    ensures out.text + rest == old(out.text) + (Escaped(c) + rest)
  {
    AppendAssoc(out.text, Escaped(c), rest);
    PutEscaped(out, c);
  }

  method OutputCString(out: Output, z: string)
    modifies out
    ensures out.text == old(out.text) + CQuoted(z)
  {
    ghost var goal := out.text + CQuoted(z);
    AppendAssoc("\"", EscapedText(z), "\"");
    out.PutPiece("\"", EscapedText(z) + "\"", CQuoted(z));
    assert z[0..] == z;
    for i := 0 to |z|
      invariant out.text + (EscapedText(z[i..]) + "\"") == goal
    {
      EscapedTextAt(z, i);
      AppendAssoc(Escaped(z[i]), EscapedText(z[i + 1..]), "\"");
      PutNext(out, z[i], EscapedText(z[i + 1..]) + "\"");
    }
    out.Put("\"");
  }

  // ----------------------------------------------------------------- reading

  predicate IsOctal(c: char) {
    '0' <= c <= '7'
  }

  function Digit(c: char): nat
    requires IsOctal(c)
  {
    (c - '0') as nat
  }

  /** How many bytes the escape takes whose first byte after the backslash is at `k`. */
  function EscapeLength(z: string, k: nat): (len: nat)
    requires k < |z|
    ensures 1 <= len <= |z| - k
  {
    if !IsOctal(z[k]) || k + 1 == |z| || !IsOctal(z[k + 1]) then 1
    else if k + 2 == |z| || !IsOctal(z[k + 2]) then 2
    else 3
  }

  /** The byte it stands for; an octal value is cut to eight bits. */
  function EscapeValue(z: string, k: nat): char
    requires k < |z|
  {
    if z[k] == 'n' then '\n'
    else if z[k] == 't' then '\t'
    else if z[k] == 'r' then '\r'
    else if !IsOctal(z[k]) then z[k]
    else
      var len := EscapeLength(z, k);
      var n := if len == 1 then Digit(z[k])
               else if len == 2 then 8 * Digit(z[k]) + Digit(z[k + 1])
               else 64 * Digit(z[k]) + 8 * Digit(z[k + 1]) + Digit(z[k + 2]);
      (n % 256) as char
  }

  /** The byte at `i`, unescaped, and the index after it. */
  function ByteAt(z: string, i: nat): char
    requires i < |z| && (z[i] == '\\' ==> i + 1 < |z|)
  {
    if z[i] == '\\' then EscapeValue(z, i + 1) else z[i]
  }

  function Next(z: string, i: nat): (j: nat)
    requires i < |z| && (z[i] == '\\' ==> i + 1 < |z|)
    ensures i < j <= |z|
  {
    if z[i] == '\\' then i + 1 + EscapeLength(z, i + 1) else i + 1
  }

  /** From `i` on, the text ends in a backslash with nothing left to escape. */
  predicate Dangling(z: string, i: nat)
    requires i <= |z|
    decreases |z| - i
  {
    i < |z| && ((z[i] == '\\' && i + 1 == |z|) || Dangling(z, Next(z, i)))
  }

  function Unescaped(z: string, i: nat): (s: string)
    requires i <= |z| && !Dangling(z, i)
    ensures |s| <= |z| - i
    decreases |z| - i
  {
    if i == |z| then "" else [ByteAt(z, i)] + Unescaped(z, Next(z, i))
  }

  /** Reads the byte at `at + i`, escaped or not; `last` is the last index it takes. */
  method ReadByte(a: array<char>, at: nat, i: nat, ghost s: string) returns (c: char, last: nat)
    requires i < |s| && NUL !in s && (s[i] == '\\' ==> i + 1 < |s|)
    requires at + |s| < a.Length && (forall k | i <= k < |s| :: a[at + k] == s[k]) && a[at + |s|] == NUL
    ensures c == ByteAt(s, i) && last == at + Next(s, i) - 1
  {
    last := at + i;
    assert forall k | i <= k < i + 4 && k < |s| :: a[at + k] == s[k];
    c := a[last];
    if c == '\\' {
      last := last + 1;
      c := a[last];
      assert c == s[i + 1];
      if c == 'n' {
        c := '\n';
      } else if c == 't' {
        c := '\t';
      } else if c == 'r' {
        c := '\r';
      } else if IsOctal(c) {
        var n := Digit(c);
        assert a[last + 1] == if i + 2 < |s| then s[i + 2] else NUL;
        if IsOctal(a[last + 1]) {
          last := last + 1;
          n := n * 8 + Digit(a[last]);
          assert a[last + 1] == if i + 3 < |s| then s[i + 3] else NUL;
          if IsOctal(a[last + 1]) {
            last := last + 1;
            n := n * 8 + Digit(a[last]);
          }
        }
        c := (n % 256) as char;
      }
    }
  }

  /** `done` has been written to the front; what is left to read, from `i` on, is as
      it was, and it makes up the rest of the result. */
  ghost predicate Resolving(a: array<char>, at: nat, s: string, i: nat, done: string)
    reads a
  {
    && |done| <= i <= |s| && at + |s| < a.Length
    && !Dangling(s, i) && !Dangling(s, 0) && Unescaped(s, 0) == done + Unescaped(s, i)
    && (forall k | 0 <= k < |done| :: a[at + k] == done[k])
    && (forall k | i <= k < |s| :: a[at + k] == s[k]) && a[at + |s|] == NUL
  }

  /** One byte of the result. */
  method ResolveOne(a: array<char>, at: nat, i: nat, j: nat, ghost s: string, ghost done: string)
    returns (last: nat, ghost done': string)
    requires NUL !in s && i < |s| && j == |done| && Resolving(a, at, s, i, done)
    modifies a
    ensures at + i <= last && j + 1 == |done'| && Resolving(a, at, s, last - at + 1, done')
    ensures forall k | 0 <= k < a.Length && k != at + j :: a[k] == old(a[k])
  {
    var c;
    c, last := ReadByte(a, at, i, s);
    AppendAssoc(done, [c], Unescaped(s, Next(s, i)));
    a[at + j] := c;
    done' := done + [c];
  }

  lemma AllResolved(s: string, done: string)
    requires !Dangling(s, 0) && Unescaped(s, 0) == done + Unescaped(s, |s|)
    ensures done == Unescaped(s, 0)
  {
    assert done + "" == done;
  }

  /** Unescapes the string at `at` in place; only the bytes of the result and its
      terminator are written, and none before it has been read. */
  method ResolveBackslashes(a: array<char>, at: nat, ghost s: string)
    requires StandsAt(a, at, s) && NUL !in s && !Dangling(s, 0)
    modifies a
    ensures StandsAt(a, at, Unescaped(s, 0))
    ensures forall k | 0 <= k < a.Length && !(at <= k <= at + |Unescaped(s, 0)|) :: a[k] == old(a[k])
  {
    var i: nat, j: nat := 0, 0;
    ghost var done := "";
    while a[at + i] != NUL
      invariant j == |done| && Resolving(a, at, s, i, done) && (i < |s| ==> a[at + i] == s[i])
      invariant forall k | 0 <= k < a.Length && !(at <= k < at + j) :: a[k] == old(a[k])
      decreases |s| - i
    {
      var last;
      last, done := ResolveOne(a, at, i, j, s, done);
      i := last - at + 1;
      j := j + 1;
    }
    AllResolved(s, done);
    a[at + j] := NUL;
  }

  /** The number that octal digits write. */
  function OctalNumber(digits: string): nat {
    if digits == "" || !IsOctal(digits[|digits| - 1]) then 0
    else 8 * OctalNumber(digits[..|digits| - 1]) + Digit(digits[|digits| - 1])
  }

  lemma OctalSnoc(z: string, k: nat, j: nat)
    requires k <= j < |z| && IsOctal(z[j])
    ensures OctalNumber(z[k..j + 1]) == 8 * OctalNumber(z[k..j]) + Digit(z[j])
  {
    assert z[k..j + 1][..j - k] == z[k..j];
  }

  /** An escape is one to three octal digits, as many as there are, and stands for their
      number cut to eight bits; or it is one other byte and stands for a newline, a tab, a
      carriage return or itself. */
  lemma EscapeMeaning(z: string, k: nat)
    requires k < |z|
    ensures var len := EscapeLength(z, k);
      if IsOctal(z[k]) then
        && len <= 3 && (forall j | k <= j < k + len :: IsOctal(z[j]))
        && (len == 3 || k + len == |z| || !IsOctal(z[k + len]))
        && EscapeValue(z, k) as int == OctalNumber(z[k..k + len]) % 256
      else
        len == 1 && EscapeValue(z, k) == (match z[k] case 'n' => '\n' case 't' => '\t' case 'r' => '\r' case c => c)
  {
    var len := EscapeLength(z, k);
    if IsOctal(z[k]) {
      OctalSnoc(z, k, k);
      if len > 1 {
        OctalSnoc(z, k, k + 1);
      }
      if len > 2 {
        OctalSnoc(z, k, k + 2);
      }
    }
  }

  /** A byte is written as it is, behind a backslash, or as a backslash and three digits;
      all that is written can be printed. */
  lemma EscapedForm(c: char)
    requires 0 < c as int < 256
    ensures forall k | 0 <= k < |Escaped(c)| :: IsPrint(Escaped(c)[k])
    ensures |Escaped(c)| == if c == '\\' || c == '\t' || c == '\n' || c == '\r' then 2 else if IsPrint(c) then 1 else 4
  {
  }

  /** The encoder prints nothing but printable bytes. */
  lemma {:induction false} EscapedIsPrintable(s: string)
    requires IsC(s)
    ensures forall k | 0 <= k < |EscapedText(s)| :: IsPrint(EscapedText(s)[k])
  {
    if s == "" {
    } else {
      EscapedForm(s[0]);
      EscapedIsPrintable(s[1..]);
    }
  }

  lemma OctalAt(z: string, k: nat, c: char)
    requires k + 2 < |z| && c as int < 256
    requires z[k] == Octal(c as int / 64) && z[k + 1] == Octal(c as int / 8 % 8) && z[k + 2] == Octal(c as int % 8)
    ensures EscapeLength(z, k) == 3 && EscapeValue(z, k) == c
  {
    var n := c as int;
    assert n == 64 * (n / 64) + 8 * (n / 8 % 8) + n % 8;
  }

  lemma FourAt(z: string, i: nat, e: string)
    requires |e| == 4 && At(z, i, e)
    ensures i + 3 < |z| && z[i] == e[0] && z[i + 1] == e[1] && z[i + 2] == e[2] && z[i + 3] == e[3]
  {
    AtHead(z, i, e);
  }

  lemma EscapedOctal(c: char)
    requires 0 < c as int < 256 && |Escaped(c)| == 4
    ensures Escaped(c) == ['\\', Octal(c as int / 64), Octal(c as int / 8 % 8), Octal(c as int % 8)]
  {
    assert c as int % 256 == c as int;
  }

  lemma OctalBack(z: string, i: nat, c: char)
    requires 0 < c as int < 256 && |Escaped(c)| == 4 && At(z, i, Escaped(c))
    ensures ByteAt(z, i) == c && Next(z, i) == i + 4
  {
    var e := Escaped(c);
    FourAt(z, i, e);
    EscapedOctal(c);
    OctalAt(z, i + 1, c);
  }

  /** Wherever the escape of a byte stands, it is read back as that byte. */
  lemma ByteAtEscaped(z: string, i: nat, c: char)
    requires 0 < c as int < 256 && At(z, i, Escaped(c))
    ensures i < |z| && (z[i] == '\\' ==> i + 1 < |z|)
    ensures ByteAt(z, i) == c && Next(z, i) == i + |Escaped(c)|
  {
    var e := Escaped(c);
    AtHead(z, i, e);
    if |e| == 4 {
      OctalBack(z, i, c);
    } else if |e| == 2 {
      assert z[i + 1] == e[1];
    }
  }

  /** Where the escaped text of `s` ends the string, unescaping gives `s` back. */
  lemma {:induction false} UnescapeEscaped(z: string, i: nat, s: string)
    requires IsC(s) && At(z, i, EscapedText(s)) && i + |EscapedText(s)| == |z|
    ensures !Dangling(z, i) && Unescaped(z, i) == s
    decreases |s|
  {
    if s == "" {
    } else {
      var e := Escaped(s[0]);
      AtConcat(z, i, e, EscapedText(s[1..]));
      ByteAtEscaped(z, i, s[0]);
      UnescapeEscaped(z, i + |e|, s[1..]);
      assert s == [s[0]] + s[1..];
    }
  }

  /** `resolve_backslashes` undoes the body of `output_c_string`, for every string. */
  lemma {:induction false} RoundTrip(s: string)
    requires IsC(s)
    ensures !Dangling(EscapedText(s), 0) && Unescaped(EscapedText(s), 0) == s
  {
    UnescapeEscaped(EscapedText(s), 0, s);
  }

  // -------------------------------------------------------------- tokenising

  function WordEnd(z: string, i: nat): (k: nat)
    requires i <= |z|
    ensures i <= k <= |z|
    decreases |z| - i
  {
    if i == |z| || IsSpace(z[i]) then i else WordEnd(z, i + 1)
  }

  lemma {:induction false} WordEndIs(z: string, i: nat, k: nat)
    requires i <= k <= |z| && (k < |z| ==> IsSpace(z[k])) && forall j | i <= j < k :: !IsSpace(z[j])
    ensures WordEnd(z, i) == k
    decreases k - i
  {
    if i == k {
    } else {
      WordEndIs(z, i + 1, k);
    }
  }

  lemma {:induction false} WordEndMeaning(z: string, i: nat)
    requires i <= |z|
    ensures var k := WordEnd(z, i);
      (k < |z| ==> IsSpace(z[k])) && forall j | i <= j < k :: !IsSpace(z[j])
    decreases |z| - i
  {
    if i == |z| || IsSpace(z[i]) {
    } else {
      WordEndMeaning(z, i + 1);
    }
  }

  predicate IsQuote(c: char) {
    c == '\'' || c == '"'
  }

  /** Where the text of the token at `t` begins and ends. */
  function RawStart(z: string, t: nat): (a: nat)
    requires t < |z|
    ensures t <= a <= |z|
  {
    if IsQuote(z[t]) then t + 1 else t
  }

  function RawEnd(z: string, t: nat): (b: nat)
    requires t < |z|
    ensures RawStart(z, t) <= b <= |z|
  {
    if IsQuote(z[t]) then Find(z, t + 1, z[t]) else WordEnd(z, t)
  }

  /** A token as it stands in the line; `literal` if it was in single quotes. */
  datatype Token = Token(literal: bool, raw: string)

  function TokenAt(z: string, t: nat): Token
    requires t < |z|
  {
    Token(z[t] == '\'', z[RawStart(z, t)..RawEnd(z, t)])
  }

  /** Behind the token and the one byte that ends it. */
  function AfterToken(z: string, t: nat): (i: nat)
    requires t < |z|
    ensures i <= |z|
    ensures !IsSpace(z[t]) ==> t < i
  {
    if RawEnd(z, t) < |z| then RawEnd(z, t) + 1 else |z|
  }

  /** The tokens from index `i` on, as many as there is room for. */
  function Scan(z: string, i: nat, room: nat): seq<Token>
    requires i <= |z|
    decreases room, 1
  {
    if room == 0 then [] else ScanAt(z, SkipSpace(z, i), room)
  }

  /** The same from an index that is not a blank. */
  function ScanAt(z: string, t: nat, room: nat): seq<Token>
    requires t <= |z| && room > 0
    decreases room, 0
  {
    if t == |z| then [] else [TokenAt(z, t)] + Scan(z, AfterToken(z, t), room - 1)
  }

  /** Only single quotes keep backslashes; elsewhere the unescaper must not meet a
      dangling one. */
  predicate TokenOk(t: Token) {
    t.literal || !Dangling(t.raw, 0)
  }

  /** The value of a token; a NUL made by an octal escape ends it. */
  function Value(t: Token): string
    requires TokenOk(t)
  {
    if t.literal then t.raw else CStr(Unescaped(t.raw, 0))
  }

  /** The quote that a token stands in, unless it stands bare. */
  function QuoteOf(t: Token): char {
    if t.literal then '\'' else '"'
  }

  function InQuotes(t: Token): string {
    [QuoteOf(t)] + t.raw + [QuoteOf(t)]
  }

  /** Quoted tokens, each after a blank. */
  function Spelled(tokens: seq<Token>): string {
    if tokens == [] then "" else " " + InQuotes(tokens[0]) + Spelled(tokens[1..])
  }

  /** An argument in double quotes, as `output_c_string` writes it, or as it is in single
      quotes. */
  datatype Argument = InC(text: string) | Verbatim(text: string)

  function RawToken(a: Argument): Token {
    match a
    case InC(s) => Token(false, EscapedText(s))
    case Verbatim(s) => Token(true, s)
  }

  /** In double quotes the token is what `output_c_string` prints. */
  lemma InCIsPrinted(s: string)
    ensures InQuotes(RawToken(InC(s))) == CQuoted(s)
  {
  }

  function RawTokens(args: seq<Argument>): (tokens: seq<Token>)
    ensures |tokens| == |args|
  {
    seq(|args|, k requires 0 <= k < |args| => RawToken(args[k]))
  }

  /** The arguments of a command line. */
  function Arguments(args: seq<Argument>): string {
    Spelled(RawTokens(args))
  }

  function TextsOf(args: seq<Argument>): (texts: seq<string>)
    ensures |texts| == |args|
  {
    seq(|args|, k requires 0 <= k < |args| => args[k].text)
  }

  /** Nothing in the text ends its quotes. */
  predicate Quotable(a: Argument) {
    IsC(a.text) && QuoteOf(RawToken(a)) !in a.text
  }

  lemma {:induction false} EscapedTextQuotes(s: string)
    ensures '"' !in s ==> '"' !in EscapedText(s)
  {
    if s == "" {
    } else {
      EscapedTextQuotes(s[1..]);
      assert '"' in Escaped(s[0]) ==> s[0] == '"';
    }
  }

  lemma {:induction false} EscapedTextConcat(a: string, b: string)
    ensures EscapedText(a + b) == EscapedText(a) + EscapedText(b)
  {
    if a == "" {
      assert a + b == b;
    } else {
      assert (a + b)[1..] == a[1..] + b;
      EscapedTextConcat(a[1..], b);
    }
  }

  predicate Plain(t: Token) {
    QuoteOf(t) !in t.raw
  }

  /** A quote, a text without that quote, and the quote again make one token. */
  lemma QuotedToken(z: string, t: nat, token: Token)
    requires Plain(token) && At(z, t, InQuotes(token))
    ensures t < |z| && z[t] == QuoteOf(token)
    ensures TokenAt(z, t) == token && AfterToken(z, t) == t + |token.raw| + 2
  {
    var q, e := QuoteOf(token), token.raw;
    AtThree(z, t, [q], e, [q]);
    AtHead(z, t, [q]);
    AtHead(z, t + 1 + |e|, [q]);
    forall j | t + 1 <= j < t + 1 + |e|
      ensures z[j] != q
    {
      assert z[t + 1 + (j - t - 1)] == e[j - t - 1];
    }
    FindIs(z, t + 1, q, t + 1 + |e|);
    assert z[t + 1..t + 1 + |e|] == e;
  }

  lemma QuotedValue(a: Argument)
    requires IsC(a.text)
    ensures TokenOk(RawToken(a)) && Value(RawToken(a)) == a.text
  {
    RoundTrip(a.text);
    FindIs(a.text, 0, NUL, |a.text|);
  }

  predicate AllPlain(tokens: seq<Token>) {
    tokens == [] || (Plain(tokens[0]) && AllPlain(tokens[1..]))
  }

  lemma {:induction false} AllPlainIf(tokens: seq<Token>)
    requires forall k | 0 <= k < |tokens| :: Plain(tokens[k])
    ensures AllPlain(tokens)
  {
    if tokens == [] {
    } else {
      AllPlainIf(tokens[1..]);
    }
  }

  /** As many of the tokens as there is room for. */
  function Firsts(tokens: seq<Token>, room: nat): seq<Token> {
    if tokens == [] || room == 0 then [] else [tokens[0]] + Firsts(tokens[1..], room - 1)
  }

  lemma {:induction false} FirstsAre(tokens: seq<Token>, room: nat)
    ensures |Firsts(tokens, room)| == Least(|tokens|, room)
    ensures forall k | 0 <= k < Least(|tokens|, room) :: Firsts(tokens, room)[k] == tokens[k]
  {
    if tokens == [] || room == 0 {
    } else {
      FirstsAre(tokens[1..], room - 1);
    }
  }

  /** The first quoted token is scanned, and the scan goes on behind it. */
  lemma FirstToken(z: string, i: nat, token: Token, room: nat)
    requires Plain(token) && At(z, i, " " + InQuotes(token))
    ensures var next := i + 1 + |InQuotes(token)|;
      next <= |z| && Scan(z, i, room) == if room == 0 then [] else [token] + Scan(z, next, room - 1)
  {
    AtConcat(z, i, " ", InQuotes(token));
    AtHead(z, i, " ");
    QuotedToken(z, i + 1, token);
    assert SkipSpace(z, i) == SkipSpace(z, i + 1) == i + 1;
  }

  /** From `i` on the text is the quoted tokens. */
  ghost predicate EndsInTokens(z: string, i: nat, tokens: seq<Token>) {
    AllPlain(tokens) && At(z, i, Spelled(tokens)) && i + |Spelled(tokens)| == |z|
  }

  lemma TokensOn(z: string, i: nat, tokens: seq<Token>)
    requires EndsInTokens(z, i, tokens) && tokens != []
    ensures Plain(tokens[0]) && At(z, i, " " + InQuotes(tokens[0]))
    ensures EndsInTokens(z, i + 1 + |InQuotes(tokens[0])|, tokens[1..])
  {
    AtConcat(z, i, " " + InQuotes(tokens[0]), Spelled(tokens[1..]));
  }

  /** The scan from `i` on finds the tokens, as many as there is room for. */
  ghost predicate ScansAs(z: string, i: nat, tokens: seq<Token>, room: nat) {
    i <= |z| && Scan(z, i, room) == Firsts(tokens, room)
  }

  lemma ScansOn(z: string, i: nat, tokens: seq<Token>, room: nat)
    requires tokens != [] && room > 0 && Plain(tokens[0]) && At(z, i, " " + InQuotes(tokens[0]))
    requires ScansAs(z, i + 1 + |InQuotes(tokens[0])|, tokens[1..], room - 1)
    ensures ScansAs(z, i, tokens, room)
  {
    FirstToken(z, i, tokens[0], room);
  }

  /** Quoted tokens without their own quote in them are scanned as they are. */
  lemma {:induction false} ScanQuoted(z: string, i: nat, tokens: seq<Token>, room: nat)
    requires EndsInTokens(z, i, tokens)
    ensures ScansAs(z, i, tokens, room)
    decreases |tokens|
  {
    if tokens == [] {
      assert i == |z|;
    } else if room > 0 {
      TokensOn(z, i, tokens);
      ScanQuoted(z, i + 1 + |InQuotes(tokens[0])|, tokens[1..], room - 1);
      ScansOn(z, i, tokens, room);
    }
  }

  /** Tokens whose values are the texts, as many as there is room for. */
  ghost predicate AreValues(tokens: seq<Token>, texts: seq<string>, room: nat) {
    && |tokens| == Least(|texts|, room)
    && forall k | 0 <= k < |tokens| :: TokenOk(tokens[k]) && Value(tokens[k]) == texts[k]
  }

  lemma QuotableIsPlain(a: Argument)
    requires Quotable(a)
    ensures Plain(RawToken(a))
  {
    EscapedTextQuotes(a.text);
  }

  /** Texts that do not end their own quotes come back through the tokeniser, as many as
      it has room for: in C quoting without a double quote, verbatim without a single one. */
  lemma ArgumentsRoundTrip(z: string, i: nat, args: seq<Argument>, room: nat)
    requires forall k | 0 <= k < |args| :: Quotable(args[k])
    requires At(z, i, Arguments(args)) && i + |Arguments(args)| == |z|
    ensures AreValues(Scan(z, i, room), TextsOf(args), room)
  {
    var tokens := RawTokens(args);
    forall k | 0 <= k < |args|
      ensures Plain(tokens[k])
    {
      QuotableIsPlain(args[k]);
    }
    AllPlainIf(tokens);
    ScanQuoted(z, i, tokens, room);
    FirstsAre(tokens, room);
    forall k | 0 <= k < Least(|args|, room) {
      QuotedValue(args[k]);
    }
  }

  /** A word that can stand bare as the first argument. */
  predicate BareWord(w: string) {
    w != "" && !IsQuote(w[0]) && forall k | 0 <= k < |w| :: !IsSpace(w[k]) && w[k] != '\\' && w[k] != NUL
  }

  /** A command line: a dot, the name of the command, and quoted arguments. */
  function CommandLine(w: string, args: seq<Argument>): string {
    "." + w + Arguments(args)
  }

  lemma ArgumentsStart(args: seq<Argument>)
    ensures Arguments(args) == "" || Arguments(args)[0] == ' '
  {
    assert Spelled(RawTokens(args)) == "" || Spelled(RawTokens(args))[0] == ' ';
  }

  /** The bare word ends at the blank before the first argument, or at the end. */
  lemma BareToken(z: string, i: nat, w: string)
    requires BareWord(w) && At(z, i, w) && (i + |w| < |z| ==> z[i + |w|] == ' ')
    ensures SkipSpace(z, i) == i && i < |z|
    ensures TokenAt(z, i) == Token(false, w)
    ensures SkipSpace(z, AfterToken(z, i)) == SkipSpace(z, i + |w|)
  {
    AtHead(z, i, w);
    forall j | i <= j < i + |w|
      ensures !IsSpace(z[j])
    {
      assert z[i + (j - i)] == w[j - i];
    }
    WordEndIs(z, i, i + |w|);
    assert z[i..i + |w|] == w;
  }

  lemma ScanSkips(z: string, i: nat, j: nat, room: nat)
    requires i <= |z| && j <= |z| && SkipSpace(z, i) == SkipSpace(z, j)
    ensures Scan(z, i, room) == Scan(z, j, room)
  {
  }

  lemma ScanBare(z: string, i: nat, w: string, room: nat)
    requires BareWord(w) && At(z, i, w) && (i + |w| < |z| ==> z[i + |w|] == ' ') && room > 0
    ensures Scan(z, i, room) == [Token(false, w)] + Scan(z, i + |w|, room - 1)
  {
    BareToken(z, i, w);
    calc {
      Scan(z, i, room);
      [Token(false, w)] + Scan(z, AfterToken(z, i), room - 1);
      { ScanSkips(z, AfterToken(z, i), i + |w|, room - 1); }
      [Token(false, w)] + Scan(z, i + |w|, room - 1);
    }
  }

  lemma CommandParts(w: string, args: seq<Argument>)
    ensures var z := CommandLine(w, args);
      && At(z, 1, w) && At(z, 1 + |w|, Arguments(args)) && 1 + |w| + |Arguments(args)| == |z|
      && (1 + |w| < |z| ==> z[1 + |w|] == ' ')
  {
    var z := CommandLine(w, args);
    AtThree(z, 0, ".", w, Arguments(args));
    ArgumentsStart(args);
    if Arguments(args) != "" {
      AtHead(z, 1 + |w|, Arguments(args));
    }
  }

  /** The bare word is the first token, and the arguments are scanned behind it. */
  lemma CommandWord(w: string, args: seq<Argument>, room: nat)
    requires BareWord(w) && room > 0
    ensures var z := CommandLine(w, args);
      && 1 + |w| <= |z|
      && Scan(z, 1, room) == [Token(false, w)] + Scan(z, 1 + |w|, room - 1)
  {
    CommandParts(w, args);
    ScanBare(CommandLine(w, args), 1, w, room);
  }

  lemma {:induction false} UnescapedPlain(z: string, i: nat)
    requires i <= |z| && forall k | i <= k < |z| :: z[k] != '\\'
    ensures !Dangling(z, i) && Unescaped(z, i) == z[i..]
    decreases |z| - i
  {
    if i == |z| {
    } else {
      UnescapedPlain(z, i + 1);
    }
  }

  lemma WordValue(w: string)
    requires BareWord(w)
    ensures TokenOk(Token(false, w)) && Value(Token(false, w)) == w
  {
    UnescapedPlain(w, 0);
    FindIs(w, 0, NUL, |w|);
  }

  lemma OneMoreValue(t: Token, text: string, tokens: seq<Token>, texts: seq<string>, room: nat, all: seq<Token>)
    requires TokenOk(t) && Value(t) == text && AreValues(tokens, texts, room) && all == [t] + tokens
    ensures AreValues(all, [text] + texts, room + 1)
  {
  }

  lemma CommandArguments(w: string, args: seq<Argument>, room: nat)
    requires forall k | 0 <= k < |args| :: Quotable(args[k])
    ensures var z := CommandLine(w, args);
      1 + |w| <= |z| && AreValues(Scan(z, 1 + |w|, room), TextsOf(args), room)
  {
    CommandParts(w, args);
    ArgumentsRoundTrip(CommandLine(w, args), 1 + |w|, args, room);
  }

  /** The command word and its arguments come back through the tokeniser, as many as
      it has room for. */
  lemma CommandRoundTrip(w: string, args: seq<Argument>, room: nat)
    requires BareWord(w) && room > 0 && forall k | 0 <= k < |args| :: Quotable(args[k])
    ensures AreValues(Scan(CommandLine(w, args), 1, room), [w] + TextsOf(args), room)
  {
    var z := CommandLine(w, args);
    CommandWord(w, args, room);
    WordValue(w);
    CommandArguments(w, args, room - 1);
    OneMoreValue(Token(false, w), w, Scan(z, 1 + |w|, room - 1), TextsOf(args), room - 1, Scan(z, 1, room));
  }

  lemma SplitAtQuote(a: string, e: string)
    requires e != "" && e[0] == '"'
    ensures "\"" + (a + e) + "\"" == ("\"" + a + "\"") + (e[1..] + "\"")
  {
    assert e == "\"" + e[1..];
  }

  lemma QuoteComesFirst(t: string)
    requires t != "" && t[0] == '"'
    ensures EscapedText(t) != "" && EscapedText(t)[0] == '"'
  {
    assert Escaped(t[0]) == "\"";
  }

  lemma ArgumentsOfOne(a: Argument)
    ensures Arguments([a]) == " " + InQuotes(RawToken(a))
  {
    assert RawTokens([a]) == [RawToken(a)] && [RawToken(a)][1..] == [];
    assert Spelled([RawToken(a)][1..]) == "";
  }

  lemma CutAtQuote(s: string, k: nat)
    requires k < |s| && s[k] == '"'
    ensures EscapedText(s[k..]) != ""
    ensures CQuoted(s) == ("\"" + EscapedText(s[..k]) + "\"") + (EscapedText(s[k..])[1..] + "\"")
  {
    assert s == s[..k] + s[k..];
    EscapedTextConcat(s[..k], s[k..]);
    QuoteComesFirst(s[k..]);
    SplitAtQuote(EscapedText(s[..k]), EscapedText(s[k..]));
  }

  /** A text in quotes is the part before the first such quote, in quotes, and a rest. */
  lemma CutArgument(a: Argument) returns (p: Argument, rest: string)
    ensures InQuotes(RawToken(a)) == InQuotes(RawToken(p)) + rest && Plain(RawToken(p))
    ensures p.InC? == a.InC? && p.text <= a.text
    ensures p.text == a.text <==> QuoteOf(RawToken(a)) !in a.text
  {
    var s, q := a.text, QuoteOf(RawToken(a));
    var k := Find(s, 0, q);
    FindMeaning(s, 0, q);
    p, rest := a.(text := s[..k]), "";
    EscapedTextQuotes(p.text);
    if k == |s| {
      assert p == a;
    } else if a.InC? {
      CutAtQuote(s, k);
      rest := EscapedText(s[k..])[1..] + "\"";
    } else {
      rest := s[k + 1..] + "'";
      assert s == s[..k] + "'" + s[k + 1..];
    }
  }

  /** A single argument comes back exactly when it does not end its own quotes. */
  lemma OneArgumentBack(a: Argument)
    requires IsC(a.text)
    ensures var tokens := Scan(Arguments([a]), 0, 1);
      |tokens| == 1 && TokenOk(tokens[0]) && (Value(tokens[0]) == a.text <==> QuoteOf(RawToken(a)) !in a.text)
  {
    ArgumentsOfOne(a);
    var p, rest := CutArgument(a);
    var z, token := Arguments([a]), RawToken(p);
    AppendAssoc(" ", InQuotes(token), rest);
    AtConcat(z, 0, " " + InQuotes(token), rest);
    FirstToken(z, 0, token, 1);
    QuotedValue(p);
  }

  /** What the scanner takes for a token: up to the quote that it begins with, or up to
      white space, or all there is; it goes on behind the byte that ends it. */
  lemma TokenMeaning(z: string, t: nat)
    requires t < |z| && !IsSpace(z[t])
    ensures var token, start := TokenAt(z, t), if IsQuote(z[t]) then t + 1 else t;
      var end := start + |token.raw|;
      && end <= |z| && token.raw == z[start..end] && token.literal == (z[t] == '\'')
      && AfterToken(z, t) == (if end < |z| then end + 1 else |z|)
      && if IsQuote(z[t]) then z[t] !in token.raw && (end < |z| ==> z[end] == z[t])
         else (forall k | start <= k < end :: !IsSpace(z[k])) && (end < |z| ==> IsSpace(z[end]))
  {
    if IsQuote(z[t]) {
      FindMeaning(z, t + 1, z[t]);
    } else {
      WordEndMeaning(z, t);
    }
  }

  /** A value is a C string: it ends before the first NUL that an escape makes. */
  lemma ValueIsC(t: Token)
    requires TokenOk(t) && NUL !in t.raw
    ensures NUL !in Value(t)
    ensures !t.literal ==> var whole := Unescaped(t.raw, 0);
      Value(t) <= whole && (Value(t) == whole || whole[|Value(t)|] == NUL)
  {
    if !t.literal {
      FindMeaning(Unescaped(t.raw, 0), 0, NUL);
    }
  }

  ghost predicate AllOk(tokens: seq<Token>) {
    forall k | 0 <= k < |tokens| :: TokenOk(tokens[k])
  }

  /** The values so far stand in the line, before index `i` or, the last one of an
      exhausted line, up to its end. */
  ghost predicate Made(a: array<char>, args: seq<nat>, values: seq<string>, i: nat, n: nat)
    reads a
  {
    && |args| == |values|
    && forall k | 0 <= k < |args| :: StandsAt(a, args[k], values[k]) && (args[k] + |values[k]| < i || i == n)
  }

  /** `values` are those of the first tokens; the others are still to be scanned. */
  ghost predicate Scanning(line: string, i: nat, room: nat, tokens: seq<Token>, values: seq<string>) {
    && i <= |line| && |values| <= room && |values| <= |tokens|
    && (forall k | 0 <= k < |values| :: TokenOk(tokens[k]) && values[k] == Value(tokens[k]))
    && Scan(line, i, room - |values|) == tokens[|values|..]
  }

  lemma ScanStep(z: string, i: nat, room: nat)
    requires i <= |z|
    ensures var t := SkipSpace(z, i);
      if t == |z| || room == 0 then Scan(z, i, room) == []
      else Scan(z, i, room) != [] && Scan(z, i, room)[0] == TokenAt(z, t)
           && Scan(z, i, room)[1..] == Scan(z, AfterToken(z, t), room - 1)
    ensures i == |z| ==> SkipSpace(z, i) == |z|
  {
  }

  lemma ScanningStep(line: string, i: nat, room: nat, tokens: seq<Token>, values: seq<string>)
    requires Scanning(line, i, room, tokens, values) && AllOk(tokens)
    ensures var t := SkipSpace(line, i);
      if t == |line| || |values| == room then |tokens| == |values|
      else TokenOk(TokenAt(line, t))
           && Scanning(line, AfterToken(line, t), room, tokens, values + [Value(TokenAt(line, t))])
  {
    var t := SkipSpace(line, i);
    var rest := tokens[|values|..];
    ScanStep(line, i, room - |values|);
    if t < |line| && |values| < room {
      assert rest[0] == tokens[|values|] == TokenAt(line, t);
      assert tokens[|values| + 1..] == rest[1..];
    }
  }

  method SkipSpaces(zLine: array<char>, from: nat, ghost line: string) returns (i: nat)
    requires NUL !in line && from <= |line| < zLine.Length
    requires (forall k | from <= k < |line| :: zLine[k] == line[k]) && zLine[|line|] == NUL
    ensures i == SkipSpace(line, from) && (i < |line| ==> !IsSpace(line[i]))
  {
    i := from;
    while IsSpace(zLine[i])
      invariant from <= i <= |line| && SkipSpace(line, i) == SkipSpace(line, from)
      decreases |line| - i
    {
      assert zLine[i] == line[i];
      i := i + 1;
    }
  }

  /** Finds the end of the token at `t` and terminates it. */
  method EndToken(zLine: array<char>, t: nat, ghost line: string) returns (start: nat, i: nat)
    requires t < |line| < zLine.Length && NUL !in line && !IsSpace(line[t])
    requires (forall k | t <= k < |line| :: zLine[k] == line[k]) && zLine[|line|] == NUL
    modifies zLine
    ensures start == RawStart(line, t) && i == AfterToken(line, t)
    ensures StandsAt(zLine, start, TokenAt(line, t).raw)
    ensures forall k | 0 <= k < zLine.Length && k != RawEnd(line, t) :: zLine[k] == old(zLine[k])
  {
    i := t;
    if IsQuote(zLine[i]) {
      var delim := zLine[i];
      i := i + 1;
      start := i;
      while zLine[i] != NUL && zLine[i] != delim
        invariant start <= i <= |line|
        invariant forall k | start <= k < i :: line[k] != delim
        decreases |line| - i
      {
        assert zLine[i] == line[i];
        i := i + 1;
      }
      FindIs(line, start, delim, i);
    } else {
      start := i;
      while zLine[i] != NUL && !IsSpace(zLine[i])
        invariant start <= i <= |line|
        invariant forall k | start <= k < i :: !IsSpace(line[k])
        decreases |line| - i
      {
        assert zLine[i] == line[i];
        i := i + 1;
      }
      WordEndIs(line, start, i);
    }
    assert i == RawEnd(line, t);
    if zLine[i] != NUL {
      zLine[i] := NUL;
      i := i + 1;
    }
  }

  /** One token: finds its end, terminates it and unescapes it where it stands;
      nothing before it and nothing after it is touched. */
  method MakeValue(zLine: array<char>, t: nat, ghost line: string) returns (start: nat, i: nat)
    requires t < |line| < zLine.Length && NUL !in line && !IsSpace(line[t]) && TokenOk(TokenAt(line, t))
    requires (forall k | t <= k < |line| :: zLine[k] == line[k]) && zLine[|line|] == NUL
    modifies zLine
    ensures i == AfterToken(line, t) && StandsAt(zLine, start, Value(TokenAt(line, t)))
    ensures start + |Value(TokenAt(line, t))| < i || i == |line|
    ensures forall k | 0 <= k < t || i <= k < zLine.Length :: zLine[k] == old(zLine[k])
    ensures zLine[|line|] == NUL
  {
    var quote := zLine[t];
    ghost var raw := TokenAt(line, t).raw;
    start, i := EndToken(zLine, t, line);
    if quote != '\'' {
      ResolveBackslashes(zLine, start, raw);
      FindMeaning(Unescaped(raw, 0), 0, NUL);
    }
  }

  method TakeToken(zLine: array<char>, t: nat, ghost line: string, ghost args: seq<nat>, ghost values: seq<string>)
    returns (start: nat, i: nat)
    requires t < |line| < zLine.Length && NUL !in line && !IsSpace(line[t]) && TokenOk(TokenAt(line, t))
    requires (forall k | t <= k < |line| :: zLine[k] == line[k]) && zLine[|line|] == NUL
    requires Made(zLine, args, values, t, |line|)
    modifies zLine
    ensures i == AfterToken(line, t)
    ensures (forall k | i <= k < |line| :: zLine[k] == line[k]) && zLine[|line|] == NUL
    ensures Made(zLine, args + [start], values + [Value(TokenAt(line, t))], i, |line|)
  {
    ghost var value := Value(TokenAt(line, t));
    start, i := MakeValue(zLine, t, line);
    forall k | 0 <= k < |args|
      ensures StandsAt(zLine, args[k], values[k]) && args[k] + |values[k]| < i
    {
    }
  }

  /** Splits the command line in `zLine` in place, as the head of `do_meta_command`
      does with room for 50: every argument is a C string standing in the line. */
  method Tokenise(zLine: array<char>, ghost line: string, room: nat) returns (azArg: seq<nat>)
    requires line != "" && NUL !in line && StandsAt(zLine, 0, line) && AllOk(Scan(line, 1, room))
    modifies zLine
    ensures |azArg| == |Scan(line, 1, room)|
    ensures forall k | 0 <= k < |azArg| :: StandsAt(zLine, azArg[k], Value(Scan(line, 1, room)[k]))
  {
    var i: nat := 1;
    azArg := [];
    ghost var tokens: seq<Token>, values: seq<string> := Scan(line, 1, room), [];
    while zLine[i] != NUL && |azArg| < room
      invariant 1 <= i <= |line| < zLine.Length && |azArg| <= room
      invariant (forall k | i <= k < |line| :: zLine[k] == line[k]) && zLine[|line|] == NUL
      invariant Made(zLine, azArg, values, i, |line|)
      invariant Scanning(line, i, room, tokens, values)
      decreases |line| - i
    {
      ScanningStep(line, i, room, tokens, values);
      i := SkipSpaces(zLine, i, line);
      if zLine[i] == NUL {
        return;
      }
      ghost var value := Value(TokenAt(line, i));
      var start;
      start, i := TakeToken(zLine, i, line, azArg, values);
      azArg := azArg + [start];
      values := values + [value];
    }
    ScanningStep(line, i, room, tokens, values);
  }

  lemma {:induction false} EscapedHasNoNul(s: string)
    requires IsC(s)
    ensures NUL !in EscapedText(s)
  {
    if s == "" {
    } else {
      EscapedHasNoNul(s[1..]);
      assert NUL !in Escaped(s[0]);
    }
  }

  lemma {:induction false} SpelledHasNoNul(tokens: seq<Token>)
    requires forall k | 0 <= k < |tokens| :: NUL !in tokens[k].raw
    ensures NUL !in Spelled(tokens)
  {
    if tokens == [] {
    } else {
      SpelledHasNoNul(tokens[1..]);
    }
  }

  lemma CommandHasNoNul(w: string, args: seq<Argument>)
    requires BareWord(w) && forall k | 0 <= k < |args| :: IsC(args[k].text)
    ensures NUL !in CommandLine(w, args)
  {
    forall k | 0 <= k < |args|
      ensures NUL !in RawTokens(args)[k].raw
    {
      EscapedHasNoNul(args[k].text);
    }
    SpelledHasNoNul(RawTokens(args));
  }

  /** A command line made of a bare word and quoted arguments is split back into them. */
  method TokeniseCommand(zLine: array<char>, ghost w: string, ghost args: seq<Argument>, room: nat)
    returns (azArg: seq<nat>)
    requires BareWord(w) && room > 0 && forall k | 0 <= k < |args| :: Quotable(args[k])
    requires StandsAt(zLine, 0, CommandLine(w, args))
    modifies zLine
    ensures |azArg| == Least(1 + |args|, room)
    ensures forall k | 0 <= k < |azArg| :: StandsAt(zLine, azArg[k], ([w] + TextsOf(args))[k])
  {
    CommandHasNoNul(w, args);
    CommandRoundTrip(w, args, room);
    azArg := Tokenise(zLine, CommandLine(w, args), room);
  }
}
