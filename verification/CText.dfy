/** C strings, character classes of the C locale, and output streams. */
module CText {
  import opened Wrappers

  const NUL: char := '\0'

  /** The text is a C string: bytes other than NUL. */
  predicate IsC(z: string) {
    forall k | 0 <= k < |z| :: 0 < z[k] as int < 256
  }

  predicate IsSpace(c: char) {
    c == ' ' || 9 as char <= c <= 13 as char
  }

  predicate IsDigit(c: char) {
    '0' <= c <= '9'
  }

  predicate IsAlpha(c: char) {
    'a' <= c <= 'z' || 'A' <= c <= 'Z'
  }

  predicate IsPrint(c: char) {
    ' ' <= c <= '~'
  }

  function Least(a: nat, b: nat): nat {
    if a < b then a else b
  }

  /** The byte at `i` of a C string. */
  function CharAt(z: string, i: nat): char {
    if i < |z| then z[i] else NUL
  }

  /** The first index from `i` on that has no white space. */
  function SkipSpace(z: string, i: nat): (k: nat)
    requires i <= |z|
    ensures i <= k <= |z|
    decreases |z| - i
  {
    if i < |z| && IsSpace(z[i]) then SkipSpace(z, i + 1) else i
  }

  predicate IsNameByte(c: char) {
    IsAlpha(c) || IsDigit(c) || c == '_'
  }

  function NameEnd(t: string, i: nat): (k: nat)
    requires i <= |t|
    ensures i <= k <= |t|
    decreases |t| - i
  {
    if i < |t| && IsNameByte(t[i]) then NameEnd(t, i + 1) else i
  }

  lemma {:induction false} NameEndMeaning(t: string, i: nat)
    requires i <= |t|
    ensures var k := NameEnd(t, i);
      (k < |t| ==> !IsNameByte(t[k])) && forall j | i <= j < k :: IsNameByte(t[j])
    decreases |t| - i
  {
    if i == |t| || !IsNameByte(t[i]) {
    } else {
      NameEndMeaning(t, i + 1);
    }
  }

  lemma {:induction false} NameEndIs(t: string, i: nat, k: nat)
    requires i <= k <= |t| && (k < |t| ==> !IsNameByte(t[k])) && forall j | i <= j < k :: IsNameByte(t[j])
    ensures NameEnd(t, i) == k
    decreases k - i
  {
    if i == k {
    } else {
      NameEndIs(t, i + 1, k);
    }
  }

  /** The index of the first `c` from `i` on, the length if there is none. */
  function Find(z: string, i: nat, c: char): (k: nat)
    requires i <= |z|
    ensures i <= k <= |z|
    decreases |z| - i
  {
    if i == |z| || z[i] == c then i else Find(z, i + 1, c)
  }

  lemma {:induction false} FindMeaning(z: string, i: nat, c: char)
    requires i <= |z|
    ensures var k := Find(z, i, c);
      (k < |z| ==> z[k] == c) && forall j | i <= j < k :: z[j] != c
    decreases |z| - i
  {
    if i >= |z| || z[i] == c {
    } else {
      FindMeaning(z, i + 1, c);
    }
  }

  lemma {:induction false} FindIs(z: string, i: nat, c: char, k: nat)
    requires i <= k <= |z| && (k < |z| ==> z[k] == c) && forall j | i <= j < k :: z[j] != c
    ensures Find(z, i, c) == k
    decreases k - i
  {
    if i == k {
    } else {
      FindIs(z, i + 1, c, k);
    }
  }

  /** `text` stands in `t` at index `i`. */
  predicate At(t: string, i: nat, text: string) {
    i + |text| <= |t| && forall k | 0 <= k < |text| :: t[i + k] == text[k]
  }

  lemma AtHead(t: string, i: nat, text: string)
    requires At(t, i, text) && text != ""
    ensures i < |t| && t[i] == text[0]
  {
    assert t[i + 0] == text[0];
  }

  lemma AppendAssoc(a: string, b: string, c: string)
    ensures a + (b + c) == (a + b) + c
  {
  }

  lemma AtConcat(t: string, i: nat, a: string, b: string)
    requires At(t, i, a + b)
    ensures At(t, i, a) && At(t, i + |a|, b)
  {
    assert forall k | 0 <= k < |a| :: t[i + k] == (a + b)[k] == a[k];
    forall k | 0 <= k < |b|
      ensures t[i + |a| + k] == b[k]
    {
      assert t[i + (|a| + k)] == (a + b)[|a| + k];
    }
  }

  lemma AtThree(t: string, i: nat, a: string, b: string, c: string)
    requires At(t, i, (a + b) + c)
    ensures At(t, i, a) && At(t, i + |a|, b) && At(t, i + |a| + |b|, c)
  {
    AtConcat(t, i, a + b, c);
    AtConcat(t, i, a, b);
  }

  /** What a C function sees of a buffer: the text before its first NUL. */
  function CStr(z: string): string {
    z[..Find(z, 0, NUL)]
  }

  /** `s` and a terminator stand in the array at `at`. */
  ghost predicate StandsAt(a: array<char>, at: nat, s: string)
    reads a
  {
    && at + |s| < a.Length
    && (forall k | 0 <= k < |s| :: a[at + k] == s[k])
    && a[at + |s|] == NUL
  }

  /** Bytes the next `Readline` stores before its NUL: through the first newline,
      or `most` bytes, or all there are. */
  function LineLength(stream: string, most: nat): (k: nat)
    ensures k <= most && k <= |stream|
  {
    if most == 0 || stream == "" then 0
    else if stream[0] == '\n' then 1
    else 1 + LineLength(stream[1..], most - 1)
  }

  /** What `LineLength` means: no newline before the last byte taken, and the line
      stops there only for one of the three reasons. */
  lemma {:induction false} LineLengthMeaning(stream: string, most: nat)
    ensures var k := LineLength(stream, most);
      && (forall j | 0 <= j < k - 1 :: stream[j] != '\n')
      && (k == most || k == |stream| || (k > 0 && stream[k - 1] == '\n'))
  {
    if most == 0 || stream == "" || stream[0] == '\n' {
    } else {
      LineLengthMeaning(stream[1..], most - 1);
    }
  }

  /** And conversely: those reasons fix the length. */
  lemma {:induction false} LineLengthIs(stream: string, most: nat, k: nat)
    requires k <= most && k <= |stream|
    requires forall j | 0 <= j < k - 1 :: stream[j] != '\n'
    requires k == most || k == |stream| || (k > 0 && stream[k - 1] == '\n')
    ensures LineLength(stream, most) == k
  {
    if k == 0 || (k == 1 && stream[0] == '\n') {
    } else {
      LineLengthIs(stream[1..], most - 1, k - 1);
    }
  }

  lemma NothingBefore(s: string)
    ensures "" + s == s
  {
  }

  // ------------------------------------------------------------------ quoting

  /** The text with every `q` doubled. */
  function Doubled(z: string, q: char): string {
    if z == "" then "" else (if z[0] == q then [q, q] else [z[0]]) + Doubled(z[1..], q)
  }

  lemma DoubledAt(z: string, i: nat, q: char)
    requires i < |z|
    ensures Doubled(z[i..], q) == (if z[i] == q then [q, q] else [z[i]]) + Doubled(z[i + 1..], q)
  {
    assert z[i..][1..] == z[i + 1..];
  }

  lemma {:induction false} DoubledPlain(z: string, q: char)
    requires q !in z
    ensures Doubled(z, q) == z
  {
    if z == "" {
    } else {
      DoubledPlain(z[1..], q);
    }
  }

  lemma {:induction false} DoubledIsNotShorter(z: string, q: char)
    ensures |Doubled(z, q)| >= |z|
  {
    if z == "" {
    } else {
      DoubledIsNotShorter(z[1..], q);
    }
  }

  /** The text between two `q`, every `q` in it doubled. */
  function Quote(q: char, z: string): string {
    [q] + (Doubled(z, q) + [q])
  }

  function WithFirst(c: char, r: Option<(string, nat)>): Option<(string, nat)> {
    if r.None? then None else Some(([c] + r.value.0, r.value.1))
  }

  /** Reads on from behind an opening `q`: the text, a doubled `q` standing for one,
      and the index behind the closing one; nothing if that is missing. */
  function Unquoted(t: string, i: nat, q: char): (r: Option<(string, nat)>)
    requires i <= |t|
    ensures r.Some? ==> i < r.value.1 <= |t|
    decreases |t| - i
  {
    if i == |t| then None
    else if t[i] != q then WithFirst(t[i], Unquoted(t, i + 1, q))
    else if i + 1 < |t| && t[i + 1] == q then WithFirst(q, Unquoted(t, i + 2, q))
    else Some(("", i + 1))
  }

  lemma {:induction false} UnquotedBack(t: string, i: nat, z: string, q: char)
    requires At(t, i, Doubled(z, q) + [q])
    requires var end := i + |Doubled(z, q)| + 1; end < |t| ==> t[end] != q
    ensures Unquoted(t, i, q) == Some((z, i + |Doubled(z, q)| + 1))
    decreases |z|
  {
    if z == "" {
      AtHead(t, i, Doubled(z, q) + [q]);
    } else {
      var one := if z[0] == q then [q, q] else [z[0]];
      var rest := Doubled(z[1..], q);
      AppendAssoc(one, rest, [q]);
      AtConcat(t, i, one, rest + [q]);
      AtHead(t, i, one);
      assert |one| == 2 ==> t[i + 1] == one[1];
      UnquotedBack(t, i + |one|, z[1..], q);
      assert z == [z[0]] + z[1..];
    }
  }

  /** A quoted text that no further `q` follows is read back. */
  lemma QuoteBack(t: string, i: nat, z: string, q: char)
    requires At(t, i, Quote(q, z))
    requires var end := i + |Quote(q, z)|; end < |t| ==> t[end] != q
    ensures i < |t| && t[i] == q && Unquoted(t, i + 1, q) == Some((z, i + |Quote(q, z)|))
  {
    AtConcat(t, i, [q], Doubled(z, q) + [q]);
    AtHead(t, i, [q]);
    UnquotedBack(t, i + 1, z, q);
  }

  /** The C string at `at`. */
  method StringAt(a: array<char>, at: nat, ghost s: string) returns (r: string)
    requires StandsAt(a, at, s) && NUL !in s
    ensures r == s
  {
    r := "";
    while a[at + |r|] != NUL
      invariant |r| <= |s| && r == s[..|r|] && (|r| < |s| ==> a[at + |r|] == s[|r|])
      decreases |s| - |r|
    {
      r := r + [a[at + |r|]];
    }
  }

  /** A stdio stream that is written to. */
  class Output {
    var text: string

    constructor ()
      ensures text == ""
    {
      text := "";
    }

    method Put(s: string)
      modifies this
      ensures text == old(text) + s
    {
      text := text + s;
    }

    /** Prints the piece with which `whole` begins; `rest` is what is left of it. */
    method PutPiece(piece: string, ghost rest: string, ghost whole: string)
      requires whole == piece + rest
      modifies this
      ensures text + rest == old(text) + whole
    {
      AppendAssoc(text, piece, rest);
      Put(piece);
    }
  }
}
