/** The lines of a text, and how they make it up. */
module TextLines {
  import opened CText

  /** The line that begins at `i`, without its newline, and the start of the next. */
  function LineAt(t: string, i: nat): string
    requires i <= |t|
  {
    t[i..Find(t, i, '\n')]
  }

  function NextLine(t: string, i: nat): (k: nat)
    requires i <= |t|
    ensures i <= k <= |t| && (i < |t| ==> i < k)
  {
    var e := Find(t, i, '\n');
    if e < |t| then e + 1 else e
  }

  /** The lines of a text from index `i` on. */
  function FileLines(t: string, i: nat): seq<string>
    requires i <= |t|
    decreases |t| - i
  {
    if i == |t| then [] else [LineAt(t, i)] + FileLines(t, NextLine(t, i))
  }

  /** Every line with a newline behind it. */
  function Ended(lines: seq<string>): string {
    if lines == [] then "" else lines[0] + ("\n" + Ended(lines[1..]))
  }

  ghost predicate NoNewlines(lines: seq<string>) {
    forall k | 0 <= k < |lines| :: '\n' !in lines[k]
  }

  lemma EndedCons(line: string, lines: seq<string>)
    ensures Ended([line] + lines) == line + ("\n" + Ended(lines))
  {
    assert ([line] + lines)[1..] == lines;
  }

  /** What the last line lacks when the text stops short of its newline. */
  function Lacking(t: string): string {
    if t != "" && t[|t| - 1] != '\n' then "\n" else ""
  }

  lemma LineAndRest(t: string, i: nat)
    requires i < |t|
    ensures var e := Find(t, i, '\n');
      && '\n' !in LineAt(t, i)
      && (e < |t| ==> t[i..] == LineAt(t, i) + ("\n" + t[NextLine(t, i)..]))
      && (e == |t| ==> t[i..] == LineAt(t, i) && NextLine(t, i) == |t| && t[|t| - 1] != '\n')
  {
    FindMeaning(t, i, '\n');
  }

  lemma FirstLine(t: string, i: nat, line: string)
    requires '\n' !in line && At(t, i, line) && At(t, i + |line|, "\n")
    ensures i < |t| && LineAt(t, i) == line && NextLine(t, i) == i + |line| + 1
  {
    AtHead(t, i + |line|, "\n");
    forall j | i <= j < i + |line|
      ensures t[j] != '\n'
    {
      assert t[i + (j - i)] == line[j - i];
    }
    FindIs(t, i, '\n', i + |line|);
    assert t[i..i + |line|] == line;
  }

  lemma LineMakesText(t: string, i: nat, rest: string)
    requires i < |t| && rest == t[NextLine(t, i)..] + Lacking(t[NextLine(t, i)..])
    ensures LineAt(t, i) + ("\n" + rest) == t[i..] + Lacking(t[i..])
  {
    var line, tail := LineAt(t, i), t[NextLine(t, i)..];
    LineAndRest(t, i);
    if Find(t, i, '\n') < |t| {
      AppendAssoc("\n", tail, Lacking(tail));
      AppendAssoc(line, "\n" + tail, Lacking(tail));
    } else {
      assert tail == "" && "\n" + rest == "\n";
    }
  }

  /** The lines from `i` on make up the text from there on, but for the newline that the
      last one may lack. */
  lemma {:induction false} LinesMakeText(t: string, i: nat)
    requires i <= |t|
    ensures NoNewlines(FileLines(t, i))
    ensures Ended(FileLines(t, i)) == t[i..] + Lacking(t[i..])
    decreases |t| - i
  {
    if i == |t| {
      assert t[i..] == "";
    } else {
      var rest := FileLines(t, NextLine(t, i));
      LineAndRest(t, i);
      LinesMakeText(t, NextLine(t, i));
      EndedCons(LineAt(t, i), rest);
      LineMakesText(t, i, Ended(rest));
    }
  }

  /** Lines without newlines that stand in the text with a newline behind each are read
      back. */
  lemma {:induction false} LinesBack(t: string, i: nat, lines: seq<string>)
    requires NoNewlines(lines) && At(t, i, Ended(lines)) && i + |Ended(lines)| == |t|
    ensures FileLines(t, i) == lines
    decreases |lines|
  {
    if lines == [] {
    } else {
      var line, rest := lines[0], Ended(lines[1..]);
      AppendAssoc(line, "\n", rest);
      AtThree(t, i, line, "\n", rest);
      FirstLine(t, i, line);
      LinesBack(t, i + |line| + 1, lines[1..]);
      assert lines == [line] + lines[1..];
    }
  }
}
