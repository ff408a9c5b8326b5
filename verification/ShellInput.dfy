/** The command loop of the sqlite shell (sqlite/shell.c): lines are gathered into
    statements, and nothing of the input is lost, repeated or reordered. */
module ShellInput {
  import opened CText
  import opened ShellImport
  import opened TextLines
  import opened Wrappers

  // ------------------------------------------------------------- blank lines

  /** Where the next end of a block comment stands, the length if there is none. */
  function CommentEnd(z: string, i: nat): (k: nat)
    requires i <= |z|
    ensures i <= k <= |z|
    decreases |z| - i
  {
    if i == |z| || At(z, i, "*/") then i else CommentEnd(z, i + 1)
  }

  /** From `i` on: white space and comments only. */
  predicate Blank(z: string, i: nat)
    decreases |z| - i
  {
    if i >= |z| then true
    else if IsSpace(z[i]) then Blank(z, i + 1)
    else if At(z, i, "/*") then CommentEnd(z, i + 2) < |z| && Blank(z, CommentEnd(z, i + 2) + 2)
    else if At(z, i, "--") then Blank(z, Find(z, i + 2, '\n') + 1)
    else false
  }

  /** `z[i..k]` is a space, a block comment, or a line comment with its newline or at
      the end of the text. */
  ghost predicate BlankPiece(z: string, i: nat, k: nat) {
    && i < k <= |z|
    && (|| (k == i + 1 && IsSpace(z[i]))
        || (At(z, i, "/*") && i + 4 <= k && At(z, k - 2, "*/") && forall j | i + 2 <= j < k - 2 :: !At(z, j, "*/"))
        || (At(z, i, "--") && i + 2 <= k && (forall j | i + 2 <= j < k - 1 :: z[j] != '\n')
            && (k == |z| || (k > i + 2 && z[k - 1] == '\n'))))
  }

  /** The text from `i` on is cut into blank pieces. */
  ghost predicate BlankCuts(z: string, i: nat, cuts: seq<nat>)
    decreases |cuts|
  {
    if cuts == [] then i >= |z| else BlankPiece(z, i, cuts[0]) && BlankCuts(z, cuts[0], cuts[1..])
  }

  lemma {:induction false} CommentEndMeaning(z: string, i: nat)
    requires i <= |z|
    ensures var k := CommentEnd(z, i);
      (k < |z| ==> At(z, k, "*/")) && forall j | i <= j < k :: !At(z, j, "*/")
    decreases |z| - i
  {
    if i >= |z| || At(z, i, "*/") {
    } else {
      CommentEndMeaning(z, i + 1);
    }
  }

  lemma {:induction false} CommentEndIs(z: string, i: nat, k: nat)
    requires i <= k < |z| && At(z, k, "*/") && forall j | i <= j < k :: !At(z, j, "*/")
    ensures CommentEnd(z, i) == k
    decreases k - i
  {
    if i == k {
    } else {
      CommentEndIs(z, i + 1, k);
    }
  }

  lemma AtTwo(z: string, i: nat, two: string)
    requires |two| == 2 && two[0] != NUL && two[1] != NUL
    ensures At(z, i, two) <==> CharAt(z, i) == two[0] && CharAt(z, i + 1) == two[1]
  {
    if At(z, i, two) {
      assert z[i + 0] == two[0] && z[i + 1] == two[1];
    }
  }

  method SkipBlockComment(z: string, from: nat) returns (i: nat)
    requires from <= |z|
    ensures i == CommentEnd(z, from)
  {
    i := from;
    while i < |z| && (z[i] != '*' || CharAt(z, i + 1) != '/')
      invariant from <= i <= |z| && CommentEnd(z, i) == CommentEnd(z, from)
    {
      AtTwo(z, i, "*/");
      i := i + 1;
    }
    AtTwo(z, i, "*/");
  }

  method SkipLineComment(z: string, from: nat) returns (i: nat)
    requires from <= |z|
    ensures i == Find(z, from, '\n')
  {
    i := from;
    while i < |z| && z[i] != '\n'
      invariant from <= i <= |z| && Find(z, i, '\n') == Find(z, from, '\n')
    {
      i := i + 1;
    }
  }

  /** `_all_whitespace`, on the text from `from` on. */
  method AllWhitespace(z: string, from: nat) returns (b: bool)
    ensures b == Blank(z, from)
  {
    var i := from;
    while i < |z|
      invariant Blank(z, i) == Blank(z, from)
      decreases |z| - i
    {
      AtTwo(z, i, "/*");
      AtTwo(z, i, "--");
      if IsSpace(z[i]) {
        i := i + 1;
      } else if z[i] == '/' && CharAt(z, i + 1) == '*' {
        i := SkipBlockComment(z, i + 2);
        if i == |z| {
          return false;
        }
        i := i + 2;
      } else if z[i] == '-' && CharAt(z, i + 1) == '-' {
        i := SkipLineComment(z, i + 2);
        if i == |z| {
          return true;
        }
        i := i + 1;
      } else {
        return false;
      }
    }
    return true;
  }

  lemma CommentFits(z: string, k: nat)
    requires At(z, k, "*/")
    ensures k + 2 <= |z|
  {
  }

  lemma {:induction false} BlankHasCuts(z: string, i: nat) returns (cuts: seq<nat>)
    requires Blank(z, i)
    ensures BlankCuts(z, i, cuts)
    decreases |z| - i
  {
    if i >= |z| {
      cuts := [];
    } else {
      var k := i + 1;
      if !IsSpace(z[i]) {
        if At(z, i, "/*") {
          CommentEndMeaning(z, i + 2);
          k := CommentEnd(z, i + 2) + 2;
          CommentFits(z, k - 2);
        } else {
          FindMeaning(z, i + 2, '\n');
          k := if Find(z, i + 2, '\n') < |z| then Find(z, i + 2, '\n') + 1 else |z|;
        }
      }
      var rest := BlankHasCuts(z, k);
      cuts := [k] + rest;
      assert cuts[1..] == rest;
    }
  }

  /** A blank piece at `i` is skipped as a whole. */
  lemma PieceIsSkipped(z: string, i: nat, k: nat)
    requires BlankPiece(z, i, k)
    ensures Blank(z, i) == Blank(z, k)
  {
    AtTwo(z, i, "/*");
    AtTwo(z, i, "--");
    if IsSpace(z[i]) {
      assert k == i + 1;
    } else if At(z, i, "/*") {
      CommentEndIs(z, i + 2, k - 2);
    } else if z[k - 1] == '\n' {
      FindIs(z, i + 2, '\n', k - 1);
    } else {
      FindIs(z, i + 2, '\n', k);
    }
  }

  lemma {:induction false} CutsAreBlank(z: string, i: nat, cuts: seq<nat>)
    requires BlankCuts(z, i, cuts)
    ensures Blank(z, i)
    decreases |cuts|
  {
    if cuts == [] {
    } else {
      PieceIsSkipped(z, i, cuts[0]);
      CutsAreBlank(z, cuts[0], cuts[1..]);
    }
  }

  ghost predicate Cutting(z: string, i: nat, cuts: seq<nat>) {
    BlankCuts(z, i, cuts)
  }

  /** From `i` on the text is made of spaces and closed comments, the last of which
      may be a line comment without a newline. */
  ghost predicate BlankText(z: string, i: nat) {
    exists cuts: seq<nat> :: Cutting(z, i, cuts)
  }

  /** The scan finds exactly the blank texts. */
  lemma BlankMeaning(z: string, i: nat)
    ensures Blank(z, i) <==> BlankText(z, i)
  {
    if Blank(z, i) {
      var cuts := BlankHasCuts(z, i);
      assert Cutting(z, i, cuts);
    }
    if BlankText(z, i) {
      var cuts: seq<nat> :| Cutting(z, i, cuts);
      CutsAreBlank(z, i, cuts);
    }
  }

  // ------------------------------------------------------ command terminators

  function Lower(c: char): char {
    if 'A' <= c <= 'Z' then c - 'A' + 'a' else c
  }

  /** A slash or the word go, and blank text behind it. */
  predicate IsTerminator(line: string) {
    var j := SkipSpace(line, 0);
    || (CharAt(line, j) == '/' && Blank(line, j + 1))
    || (Lower(CharAt(line, j)) == 'g' && Lower(CharAt(line, j + 1)) == 'o' && Blank(line, j + 2))
  }

  method SkipBlanks(z: string) returns (i: nat)
    ensures i == SkipSpace(z, 0)
  {
    i := 0;
    while i < |z| && IsSpace(z[i])
      invariant i <= |z| && SkipSpace(z, i) == SkipSpace(z, 0)
    {
      i := i + 1;
    }
  }

  method IsCommandTerminator(zLine: string) returns (b: bool)
    ensures b == IsTerminator(zLine)
  {
    var i := SkipBlanks(zLine);
    if CharAt(zLine, i) == '/' {
      b := AllWhitespace(zLine, i + 1);
      if b {
        return;
      }
    }
    if Lower(CharAt(zLine, i)) == 'g' && Lower(CharAt(zLine, i + 1)) == 'o' {
      b := AllWhitespace(zLine, i + 2);
      return;
    }
    return false;
  }

  /** A line as it is stored. */
  function StoredLine(line: string): string {
    if IsTerminator(line) then ";" else line
  }

  /** One of the two terminators, the word in any case. */
  predicate TerminatorWord(k: string) {
    k == "/" || k == "go" || k == "Go" || k == "gO" || k == "GO"
  }

  /** White space, a terminator at `i`, and blank text behind it. */
  ghost predicate TerminatorAt(line: string, i: nat, k: string) {
    && i <= |line| && (forall j | 0 <= j < i :: IsSpace(line[j]))
    && TerminatorWord(k) && At(line, i, k) && BlankText(line, i + |k|)
  }

  lemma {:induction false} SkipSpaceMeaning(z: string, i: nat)
    requires i <= |z|
    ensures var k := SkipSpace(z, i);
      (k < |z| ==> !IsSpace(z[k])) && forall j | i <= j < k :: IsSpace(z[j])
    decreases |z| - i
  {
    if i == |z| || !IsSpace(z[i]) {
    } else {
      SkipSpaceMeaning(z, i + 1);
    }
  }

  lemma TerminatorFound(line: string) returns (k: string)
    requires IsTerminator(line)
    ensures TerminatorAt(line, SkipSpace(line, 0), k)
  {
    var j := SkipSpace(line, 0);
    SkipSpaceMeaning(line, 0);
    if CharAt(line, j) == '/' && Blank(line, j + 1) {
      k := "/";
      BlankMeaning(line, j + 1);
    } else {
      k := [line[j], line[j + 1]];
      BlankMeaning(line, j + 2);
    }
  }

  lemma TerminatorIsFound(line: string, i: nat, k: string)
    requires TerminatorAt(line, i, k)
    ensures IsTerminator(line)
  {
    AtHead(line, i, k);
    SkipSpaceMeaning(line, 0);
    assert SkipSpace(line, 0) == i;
    BlankMeaning(line, i + |k|);
    if |k| == 2 {
      assert line[i + 1] == k[1];
    }
  }

  /** A line is stored as a semicolon exactly if it is a slash or the word go, in any
      case, among blank text; any other line as it is. */
  lemma StoredIff(line: string)
    ensures StoredLine(line) == if exists i: nat, k: string :: TerminatorAt(line, i, k) then ";" else line
  {
    if IsTerminator(line) {
      var k := TerminatorFound(line);
    }
    if i: nat, k: string :| TerminatorAt(line, i, k) {
      TerminatorIsFound(line, i, k);
    }
  }

  // ------------------------------------------------------------------- events

  /** What the loop does: it passes over a line, takes it as a command of the shell,
      keeps it for a statement, or has a statement executed. */
  datatype Event = Skip(line: string) | Meta(line: string) | Keep(line: string) | Run(sql: string)

  type Log = seq<Event>

  /** The lines with a newline between each two. */
  function Joined(lines: seq<string>): string {
    if |lines| == 0 then ""
    else if |lines| == 1 then lines[0]
    else Joined(lines[..|lines| - 1]) + ("\n" + lines[|lines| - 1])
  }

  function Before(log: Log): Log
    requires log != []
  {
    log[..|log| - 1]
  }

  function Latest(log: Log): Event
    requires log != []
  {
    log[|log| - 1]
  }

  /** The lines that have been read. */
  function LinesOf(log: Log): seq<string> {
    if log == [] then []
    else if Latest(log).Run? then LinesOf(Before(log))
    else LinesOf(Before(log)) + [Latest(log).line]
  }

  /** For each line whether it was kept for a statement. */
  function Marks(log: Log): seq<bool> {
    if log == [] then []
    else if Latest(log).Run? then Marks(Before(log))
    else Marks(Before(log)) + [Latest(log).Keep?]
  }

  /** The marked lines as they are stored. */
  function Picked(lines: seq<string>, marks: seq<bool>): seq<string>
    requires |marks| == |lines|
  {
    if lines == [] then []
    else
      var last := |lines| - 1;
      Picked(lines[..last], marks[..last]) + if marks[last] then [StoredLine(lines[last])] else []
  }

  /** The lines stored since the last execution. */
  function Pending(log: Log): seq<string> {
    if log == [] then []
    else match Latest(log)
         case Run(_) => []
         case Keep(line) => Pending(Before(log)) + [StoredLine(line)]
         case _ => Pending(Before(log))
  }

  /** For each executed statement the lines stored for it. */
  function Groups(log: Log): seq<seq<string>> {
    if log == [] then []
    else if Latest(log).Run? then Groups(Before(log)) + [Pending(Before(log))]
    else Groups(Before(log))
  }

  /** The executed statements. */
  function Statements(log: Log): seq<string> {
    if log == [] then []
    else if Latest(log).Run? then Statements(Before(log)) + [Latest(log).sql]
    else Statements(Before(log))
  }

  function Flat(groups: seq<seq<string>>): seq<string> {
    if groups == [] then [] else Flat(groups[..|groups| - 1]) + groups[|groups| - 1]
  }

  type Completeness = string -> bool

  /** The line just stored has a semicolon and makes the statement complete. */
  predicate MustRun(log: Log, complete: Completeness) {
    log != [] && Latest(log).Keep? && ';' in StoredLine(Latest(log).line) && complete(Joined(Pending(log)))
  }

  /** The rules of the loop: only between statements are blank lines passed over and
      shell commands taken; a statement is executed as soon as it is complete. */
  predicate EventOk(log: Log, e: Event, complete: Completeness) {
    var between := Pending(log) == [];
    match e
    case Run(sql) => MustRun(log, complete) && sql == Joined(Pending(log))
    case Skip(line) => !MustRun(log, complete) && between && Blank(line, 0)
    case Meta(line) => !MustRun(log, complete) && between && !Blank(line, 0) && line[0] == '.'
    case Keep(line) => !MustRun(log, complete) && (between ==> !Blank(line, 0) && line[0] != '.')
  }

  predicate Legal(log: Log, complete: Completeness) {
    log == [] || (Legal(Before(log), complete) && EventOk(Before(log), Latest(log), complete))
  }

  lemma Snoc(log: Log, e: Event)
    ensures Before(log + [e]) == log && Latest(log + [e]) == e
  {
  }

  lemma Extended(log: Log, e: Event, complete: Completeness)
    requires Legal(log, complete) && EventOk(log, e, complete)
    ensures Legal(log + [e], complete)
    ensures LinesOf(log + [e]) == if e.Run? then LinesOf(log) else LinesOf(log) + [e.line]
    ensures Pending(log + [e])
         == if e.Run? then [] else if e.Keep? then Pending(log) + [StoredLine(e.line)] else Pending(log)
    ensures MustRun(log + [e], complete) <==>
      e.Keep? && ';' in StoredLine(e.line) && complete(Joined(Pending(log + [e])))
  {
    Snoc(log, e);
  }

  // -------------------------------------------------------------- conservation

  lemma {:induction false} EndedSnoc(lines: seq<string>, line: string)
    ensures Ended(lines + [line]) == Ended(lines) + (line + "\n")
    decreases |lines|
  {
    if lines == [] {
      assert [] + [line] == [line] && [line][1..] == [] && "\n" + Ended([line][1..]) == "\n";
      NothingBefore(line + "\n");
    } else {
      assert (lines + [line])[1..] == lines[1..] + [line];
      EndedSnoc(lines[1..], line);
      AppendAssoc("\n", Ended(lines[1..]), line + "\n");
      AppendAssoc(lines[0], "\n" + Ended(lines[1..]), line + "\n");
    }
  }

  lemma JoinedStep(before: string, last: string)
    ensures (before + ("\n" + last)) + "\n" == (before + "\n") + (last + "\n")
  {
  }

  lemma {:induction false} JoinedAndEnded(lines: seq<string>)
    requires lines != []
    ensures Joined(lines) + "\n" == Ended(lines)
    decreases |lines|
  {
    var init, last := lines[..|lines| - 1], lines[|lines| - 1];
    if |lines| == 1 {
      assert lines[1..] == [] && "\n" + Ended(lines[1..]) == "\n";
    } else {
      JoinedAndEnded(init);
      EndedSnoc(init, last);
      JoinedStep(Joined(init), last);
      assert lines == init + [last];
    }
  }

  /** Joined by newlines, the lines of a text are the text again, short of its last newline. */
  lemma JoinedIsText(t: string)
    requires t != ""
    ensures Joined(FileLines(t, 0)) + "\n" == t + Lacking(t)
  {
    LinesMakeText(t, 0);
    JoinedAndEnded(FileLines(t, 0));
    assert t[0..] == t;
  }

  /** Lines that are dropped between statements: blank ones and shell commands. */
  predicate Droppable(line: string) {
    Blank(line, 0) || (line != "" && line[0] == '.')
  }

  /** Only lines that may be dropped are not marked. */
  ghost predicate EachMarked(lines: seq<string>, marks: seq<bool>) {
    |marks| == |lines| && forall k | 0 <= k < |lines| :: marks[k] || Droppable(lines[k])
  }

  ghost predicate EachJoined(groups: seq<seq<string>>, statements: seq<string>) {
    && |statements| == |groups|
    && forall k | 0 <= k < |groups| :: groups[k] != [] && statements[k] == Joined(groups[k])
  }

  /** Every line is stored or may be dropped; the stored lines, in order, are those of
      the executed statements and the pending ones, each in exactly one of them; and
      each statement is its lines with newlines between them. */
  ghost predicate Accounted(lines: seq<string>, log: Log) {
    && EachMarked(lines, Marks(log))
    && Picked(lines, Marks(log)) == Flat(Groups(log)) + Pending(log)
    && EachJoined(Groups(log), Statements(log))
  }

  lemma EachMarkedSnoc(lines: seq<string>, marks: seq<bool>, line: string, mark: bool)
    requires EachMarked(lines, marks) && (mark || Droppable(line))
    ensures EachMarked(lines + [line], marks + [mark])
  {
  }

  lemma EachJoinedSnoc(groups: seq<seq<string>>, statements: seq<string>, group: seq<string>)
    requires EachJoined(groups, statements) && group != []
    ensures EachJoined(groups + [group], statements + [Joined(group)])
  {
  }

  lemma PickedSnoc(lines: seq<string>, marks: seq<bool>, line: string, mark: bool)
    requires |marks| == |lines|
    ensures Picked(lines + [line], marks + [mark]) == Picked(lines, marks) + if mark then [StoredLine(line)] else []
  {
    assert (lines + [line])[..|lines|] == lines && (marks + [mark])[..|lines|] == marks;
  }

  lemma FlatSnoc(groups: seq<seq<string>>, group: seq<string>)
    ensures Flat(groups + [group]) == Flat(groups) + group
  {
    assert (groups + [group])[..|groups|] == groups;
  }

  /** What one more event makes of the log. */
  lemma Grown(log: Log, e: Event)
    ensures LinesOf(log + [e]) == if e.Run? then LinesOf(log) else LinesOf(log) + [e.line]
    ensures Marks(log + [e]) == if e.Run? then Marks(log) else Marks(log) + [e.Keep?]
    ensures Pending(log + [e])
         == if e.Run? then [] else if e.Keep? then Pending(log) + [StoredLine(e.line)] else Pending(log)
    ensures Groups(log + [e]) == if e.Run? then Groups(log) + [Pending(log)] else Groups(log)
    ensures Statements(log + [e]) == if e.Run? then Statements(log) + [e.sql] else Statements(log)
  {
    Snoc(log, e);
  }

  lemma NothingPending(a: seq<string>)
    ensures a + [] == a
  {
  }

  lemma {:induction false} RunAccounted(lines: seq<string>, log: Log, sql: string)
    requires Accounted(lines, log) && Pending(log) != [] && sql == Joined(Pending(log))
    ensures Accounted(lines, log + [Run(sql)])
  {
    Grown(log, Run(sql));
    FlatSnoc(Groups(log), Pending(log));
    EachJoinedSnoc(Groups(log), Statements(log), Pending(log));
    NothingPending(Flat(Groups(log)) + Pending(log));
  }

  lemma PendingGrows(a: seq<string>, b: seq<string>, c: string)
    ensures (a + b) + [c] == a + (b + [c])
  {
  }

  lemma KeepAccounted(lines: seq<string>, log: Log, line: string)
    requires Accounted(lines, log)
    ensures Accounted(lines + [line], log + [Keep(line)])
  {
    Grown(log, Keep(line));
    EachMarkedSnoc(lines, Marks(log), line, true);
    PickedSnoc(lines, Marks(log), line, true);
    PendingGrows(Flat(Groups(log)), Pending(log), StoredLine(line));
  }

  lemma DropAccounted(lines: seq<string>, log: Log, e: Event)
    requires Accounted(lines, log) && (e.Skip? || e.Meta?) && Droppable(e.line)
    ensures Accounted(lines + [e.line], log + [e])
  {
    Grown(log, e);
    EachMarkedSnoc(lines, Marks(log), e.line, false);
    PickedSnoc(lines, Marks(log), e.line, false);
    NothingPending(Picked(lines, Marks(log)));
  }

  lemma {:induction false} Conserved(log: Log, complete: Completeness)
    requires Legal(log, complete)
    ensures Accounted(LinesOf(log), log)
    decreases |log|
  {
    if log == [] {
    } else {
      var b, e := Before(log), Latest(log);
      assert log == b + [e] && EventOk(b, e, complete);
      Conserved(b, complete);
      Grown(b, e);
      match e
      case Run(sql) => RunAccounted(LinesOf(b), b, sql);
      case Keep(line) => KeepAccounted(LinesOf(b), b, line);
      case _ => DropAccounted(LinesOf(b), b, e);
    }
  }

  /** Executed statements, and the lines waiting for the next one. */
  datatype Progress = Progress(statements: seq<string>, pending: seq<string>)

  function NextLineGathered(g: Progress, line: string, complete: Completeness): Progress {
    var pending := g.pending + [StoredLine(line)];
    if g.pending == [] && Droppable(line) then g
    else if ';' in StoredLine(line) && complete(Joined(pending)) then Progress(g.statements + [Joined(pending)], [])
    else Progress(g.statements, pending)
  }

  /** What comes of lines, told without a log. */
  function Gathered(lines: seq<string>, complete: Completeness): Progress {
    if lines == [] then Progress([], [])
    else NextLineGathered(Gathered(lines[..|lines| - 1], complete), lines[|lines| - 1], complete)
  }

  /** The log before the last line was read. */
  function Earlier(log: Log): Log
    requires log != []
  {
    if Latest(log).Run? && |log| > 1 then Before(Before(log)) else Before(log)
  }

  /** The log after one more line, which is executed at once if it must be. */
  function After(log: Log, e: Event, complete: Completeness): Log {
    log + [e] + if MustRun(log + [e], complete) then [Run(Joined(Pending(log + [e])))] else []
  }

  predicate Settled(log: Log, complete: Completeness) {
    Legal(log, complete) && !MustRun(log, complete)
  }

  lemma LastRound(log: Log, complete: Completeness) returns (e: Event)
    requires Settled(log, complete) && log != []
    ensures var n := Earlier(log);
      && Settled(n, complete) && EventOk(n, e, complete) && !e.Run?
      && log == After(n, e, complete) && LinesOf(log) == LinesOf(n) + [e.line]
  {
    var b := Before(log);
    if Latest(log).Run? {
      assert MustRun(b, complete);
      e := Latest(b);
      assert Legal(b, complete) && EventOk(Before(b), e, complete);
      assert b == Before(b) + [e] && log == b + [Latest(log)];
    } else {
      e := Latest(log);
      assert log == b + [e] && EventOk(b, e, complete);
    }
  }

  lemma RoundGathers(n: Log, e: Event, complete: Completeness)
    requires Settled(n, complete) && EventOk(n, e, complete) && !e.Run?
    ensures var log := After(n, e, complete);
      Progress(Statements(log), Pending(log))
      == NextLineGathered(Progress(Statements(n), Pending(n)), e.line, complete)
  {
    var m := n + [e];
    Grown(n, e);
    Snoc(n, e);
    assert MustRun(m, complete) <==> e.Keep? && ';' in StoredLine(e.line) && complete(Joined(Pending(m)));
    assert e.Keep? <==> !(Pending(n) == [] && Droppable(e.line));
    if MustRun(m, complete) {
      Grown(m, Run(Joined(Pending(m))));
    } else {
      assert m + [] == m;
    }
  }

  /** The statements executed and the lines pending are those that the lines read say. */
  lemma {:induction false} LogGathers(log: Log, complete: Completeness)
    requires Settled(log, complete)
    ensures Progress(Statements(log), Pending(log)) == Gathered(LinesOf(log), complete)
    decreases |log|
  {
    if log == [] {
    } else {
      var e := LastRound(log, complete);
      var n := Earlier(log);
      LogGathers(n, complete);
      RoundGathers(n, e, complete);
      assert (LinesOf(n) + [e.line])[..|LinesOf(n)|] == LinesOf(n);
    }
  }

  lemma SameEnds(a: seq<string>, x: string, b: seq<string>, y: string)
    requires a + [x] == b + [y]
    ensures a == b && x == y
  {
    assert a == (a + [x])[..|a + [x]| - 1];
    assert b == (b + [y])[..|b + [y]| - 1];
    assert (a + [x])[|a|] == x && (b + [y])[|b|] == y;
  }

  /** What has been read and the completeness test determine what happens: two legal
      logs of the same lines, with nothing left to execute, are the same. */
  lemma {:induction false} LegalIsUnique(log: Log, other: Log, complete: Completeness)
    requires Settled(log, complete) && Settled(other, complete)
    requires LinesOf(log) == LinesOf(other)
    ensures log == other
    decreases |log|
  {
    if log == [] {
      if other != [] {
        var f := LastRound(other, complete);
      }
    } else {
      var e := LastRound(log, complete);
      if other != [] {
        var f := LastRound(other, complete);
        SameEnds(LinesOf(Earlier(log)), e.line, LinesOf(Earlier(other)), f.line);
        LegalIsUnique(Earlier(log), Earlier(other), complete);
        assert e == f;
      }
    }
  }

  // ----------------------------------------------------------------- the loop

  /** The next line of the input. */
  method OneInputLine(input: Input, unit: nat) returns (line: Option<string>)
    requires input.pos <= |input.text| && unit >= 2
    modifies input
    ensures old(input.pos) <= input.pos <= |input.text|
    ensures line.Some? ==> old(input.pos) < input.pos
    ensures line.None? ==> input.pos == |input.text|
    ensures NUL !in input.text && old(input.pos) == |input.text| ==> line.None?
    ensures NUL !in input.text && old(input.pos) < |input.text| ==>
      line == Some(LineAt(input.text, old(input.pos))) && input.pos == NextLine(input.text, old(input.pos))
  {
    var zLine, text := LocalGetline(input, unit);
    if zLine == null {
      return None;
    }
    var s := StringAt(zLine, 0, text);
    return Some(s);
  }

  /** `zSql` and `nSql` hold the pending lines; without any `zSql` is null. */
  ghost predicate Holds(log: Log, zSql: Option<string>, nSql: nat) {
    if Pending(log) == [] then zSql.None? && nSql == 0
    else zSql == Some(Joined(Pending(log))) && nSql == |Joined(Pending(log))| > 0
  }

  /** Adds a line to the statement. */
  method StoreLine(zSql: Option<string>, nSql: nat, zLine: string) returns (zSql': Option<string>, nSql': nat)
    requires if zSql.None? then nSql == 0 else nSql == |zSql.value|
    ensures zSql.None? && SkipSpace(zLine, 0) < |zLine| ==> zSql' == Some(zLine) && nSql' == |zLine|
    ensures zSql.None? && SkipSpace(zLine, 0) == |zLine| ==> zSql' == None && nSql' == nSql
    ensures zSql.Some? ==> zSql' == Some(zSql.value + ("\n" + zLine)) && nSql' == nSql + 1 + |zLine|
  {
    zSql', nSql' := zSql, nSql;
    if zSql.None? {
      var i := SkipBlanks(zLine);
      if i < |zLine| {
        nSql' := |zLine|;
        zSql' := Some(zLine);
      }
    } else {
      AppendAssoc(zSql.value, "\n", zLine);
      zSql' := Some(zSql.value + "\n" + zLine);
      nSql' := nSql' + 1;
      nSql' := nSql' + |zLine|;
    }
  }

  method ContainsSemicolon(z: string, from: nat, n: nat) returns (b: bool)
    requires from + n <= |z|
    ensures b <==> ';' in z[from..from + n]
  {
    for i := 0 to n
      invariant ';' !in z[from..from + i]
    {
      if z[from + i] == ';' {
        assert z[from..from + n][i] == ';';
        return true;
      }
      assert z[from..from + i + 1] == z[from..from + i] + [z[from + i]];
    }
    return false;
  }

  lemma {:induction false} BlankIfAllSpace(z: string, i: nat)
    requires i <= |z| && SkipSpace(z, i) == |z|
    ensures Blank(z, i)
    decreases |z| - i
  {
    if i == |z| {
    } else {
      BlankIfAllSpace(z, i + 1);
    }
  }

  lemma JoinedSnoc(lines: seq<string>, s: string)
    ensures Joined(lines + [s]) == if lines == [] then s else Joined(lines) + ("\n" + s)
  {
    assert (lines + [s])[..|lines|] == lines;
  }

  /** What has been added to the buffer has a semicolon exactly if the line has. */
  lemma Addition(before: string, newline: bool, stored: string, whole: string)
    requires whole == if newline then before + ("\n" + stored) else stored
    requires !newline ==> before == ""
    ensures |before| <= |whole|
    ensures ';' in whole[|before|..|before| + (|whole| - |before|)] <==> ';' in stored
  {
    var added := whole[|before|..|before| + (|whole| - |before|)];
    assert added == if newline then "\n" + stored else stored;
    if ';' in stored {
      var k :| 0 <= k < |stored| && stored[k] == ';';
      assert added[if newline then k + 1 else k] == ';';
    }
    if ';' in added {
      var k :| 0 <= k < |added| && added[k] == ';';
      assert stored[if newline then k - 1 else k] == ';';
    }
  }

  /** A line goes to the statement: the buffer holds the pending lines again, and the
      scan of what was added finds whether the line has a semicolon. */
  method KeepLine(ghost log: Log, line: string, zSql: Option<string>, nSql: nat)
    returns (zSql': Option<string>, nSql': nat, semicolon: bool)
    requires Holds(log, zSql, nSql) && (Pending(log) == [] ==> !Blank(line, 0))
    ensures Holds(log + [Keep(line)], zSql', nSql') && zSql'.Some?
    ensures semicolon <==> ';' in StoredLine(line)
  {
    var zLine := line;
    var terminator := IsCommandTerminator(zLine);
    if terminator {
      zLine := ";";
    }
    ghost var stored := StoredLine(line);
    Snoc(log, Keep(line));
    JoinedSnoc(Pending(log), stored);
    if SkipSpace(zLine, 0) == |zLine| {
      BlankIfAllSpace(zLine, 0);
    }
    zSql', nSql' := StoreLine(zSql, nSql, zLine);
    semicolon := ContainsSemicolon(zSql'.value, nSql, nSql' - nSql);
    Addition(if zSql.None? then "" else zSql.value, zSql.Some?, stored, zSql'.value);
  }

  /** The outside world of one run of the loop: sqlite and the shell commands, whose
      results may depend on all that has happened, and a log of what happens. */
  class Session {
    const complete: Completeness
    const meta: Log -> int
    const fails: Log -> bool
    const bails: Log -> bool
    var log: Log

    constructor (complete: Completeness, meta: Log -> int, fails: Log -> bool, bails: Log -> bool)
      ensures log == [] && this.complete == complete
      ensures this.meta == meta && this.fails == fails && this.bails == bails
    {
      this.complete, this.meta, this.fails, this.bails, log := complete, meta, fails, bails, [];
    }

    method Add(e: Event)
      modifies this
      ensures log == old(log) + [e]
    {
      log := log + [e];
    }
  }

  predicate Failed(log: Log, meta: Log -> int, fails: Log -> bool)
    requires log != []
  {
    || (Latest(log).Meta? && meta(log) != 0 && meta(log) != 2)
    || (Latest(log).Run? && fails(log))
  }

  /** Commands that failed, statements that failed. */
  function Errors(log: Log, meta: Log -> int, fails: Log -> bool): nat {
    if log == [] then 0
    else Errors(Before(log), meta, fails) + if Failed(log, meta, fails) then 1 else 0
  }

  /** The last of the first `k` events was a statement that failed, or a command that
      neither succeeded nor ended the loop. */
  predicate FailedAt(log: Log, k: nat, meta: Log -> int, fails: Log -> bool)
    requires 0 < k <= |log|
  {
    match log[k - 1]
    case Meta(_) => meta(log[..k]) !in {0, 2}
    case Run(_) => fails(log[..k])
    case _ => false
  }

  /** The moments at which something had just failed. */
  ghost function Failures(log: Log, meta: Log -> int, fails: Log -> bool): set<nat> {
    set k: nat | 0 < k <= |log| && FailedAt(log, k, meta, fails)
  }

  lemma {:induction false} ErrorsCount(log: Log, meta: Log -> int, fails: Log -> bool)
    ensures Errors(log, meta, fails) == |Failures(log, meta, fails)|
    decreases |log|
  {
    if log == [] {
      assert Failures(log, meta, fails) == {};
    } else {
      var n, before := |log|, Failures(Before(log), meta, fails);
      assert log[..n] == log;
      forall k: nat | k < n
        ensures log[..k] == Before(log)[..k]
      {
      }
      assert n !in before;
      assert Failures(log, meta, fails) == before + if Failed(log, meta, fails) then {n} else {};
      ErrorsCount(Before(log), meta, fails);
    }
  }

  /** The last thing was a shell command that ends the loop. */
  predicate Quit(log: Log, meta: Log -> int) {
    log != [] && Latest(log).Meta? && meta(log) == 2
  }

  /** The loop must not go on from here: a command has ended it, or there have been errors
      that it does not survive. */
  predicate MustStop(log: Log, meta: Log -> int, fails: Log -> bool, bails: Log -> bool) {
    Quit(log, meta) || (Errors(log, meta, fails) > 0 && bails(log))
  }

  /** Between rounds the log was `log`, and then not again before `next`. */
  ghost predicate OneRound(log: Log, next: Log, complete: Completeness) {
    |log| < |next| && log <= next && forall k | |log| < k < |next| :: !Settled(next[..k], complete)
  }

  /** The loop went on only from where it may. */
  ghost predicate Continued(log: Log, s: Session)
  {
    forall k | 0 <= k < |log| && Settled(log[..k], s.complete) :: !MustStop(log[..k], s.meta, s.fails, s.bails)
  }

  lemma ContinuedOn(log: Log, next: Log, s: Session)
    requires Continued(log, s) && OneRound(log, next, s.complete) && !MustStop(log, s.meta, s.fails, s.bails)
    ensures Continued(next, s)
  {
    forall k | 0 <= k < |next| && Settled(next[..k], s.complete)
      ensures !MustStop(next[..k], s.meta, s.fails, s.bails)
    {
      if k < |log| {
        assert next[..k] == log[..k];
      } else {
        assert k == |log| && next[..k] == log;
      }
    }
  }

  method TakeMeta(s: Session, zLine: string, errCnt: nat) returns (errCnt': nat, done: bool)
    requires Settled(s.log, s.complete) && EventOk(s.log, Meta(zLine), s.complete)
    requires errCnt == Errors(s.log, s.meta, s.fails)
    modifies s
    ensures Settled(s.log, s.complete) && Pending(s.log) == Pending(old(s.log))
    ensures LinesOf(s.log) == LinesOf(old(s.log)) + [zLine] && OneRound(old(s.log), s.log, s.complete)
    ensures errCnt' == Errors(s.log, s.meta, s.fails)
    ensures done <==> Quit(s.log, s.meta)
  {
    errCnt', done := errCnt, false;
    ghost var log := s.log;
    s.Add(Meta(zLine));
    Extended(log, Meta(zLine), s.complete);
    Snoc(log, Meta(zLine));
    var rc := s.meta(s.log);
    if rc == 2 {
      done := true;
    } else if rc != 0 {
      errCnt' := errCnt + 1;
    }
  }

  method Execute(s: Session, sql: string, errCnt: nat) returns (zSql: Option<string>, nSql: nat, errCnt': nat)
    requires Legal(s.log, s.complete) && EventOk(s.log, Run(sql), s.complete)
    requires errCnt == Errors(s.log, s.meta, s.fails)
    modifies s
    ensures Settled(s.log, s.complete) && Holds(s.log, zSql, nSql)
    ensures LinesOf(s.log) == LinesOf(old(s.log)) && s.log == old(s.log) + [Run(sql)]
    ensures errCnt' == Errors(s.log, s.meta, s.fails)
    ensures !Quit(s.log, s.meta)
  {
    ghost var log := s.log;
    s.Add(Run(sql));
    Extended(log, Run(sql), s.complete);
    Snoc(log, Run(sql));
    errCnt' := errCnt;
    if s.fails(s.log) {
      errCnt' := errCnt + 1;
    }
    zSql, nSql := None, 0;
  }

  method TakeSql(s: Session, zLine: string, zSql: Option<string>, nSql: nat, errCnt: nat)
    returns (zSql': Option<string>, nSql': nat, errCnt': nat)
    requires Settled(s.log, s.complete) && EventOk(s.log, Keep(zLine), s.complete) && Holds(s.log, zSql, nSql)
    requires errCnt == Errors(s.log, s.meta, s.fails)
    modifies s
    ensures Settled(s.log, s.complete) && Holds(s.log, zSql', nSql')
    ensures LinesOf(s.log) == LinesOf(old(s.log)) + [zLine] && OneRound(old(s.log), s.log, s.complete)
    ensures errCnt' == Errors(s.log, s.meta, s.fails)
    ensures !Quit(s.log, s.meta)
  {
    errCnt' := errCnt;
    ghost var log := s.log;
    var semicolon;
    zSql', nSql', semicolon := KeepLine(log, zLine, zSql, nSql);
    s.Add(Keep(zLine));
    Extended(log, Keep(zLine), s.complete);
    Snoc(log, Keep(zLine));
    if semicolon && s.complete(zSql'.value) {
      ghost var stored := s.log;
      zSql', nSql', errCnt' := Execute(s, zSql'.value, errCnt);
      assert s.log[..|stored|] == stored && MustRun(stored, s.complete);
    }
  }

  /** One round of the loop with the line `zLine`; `done` if the loop must end. */
  method TakeLine(s: Session, zLine: string, zSql: Option<string>, nSql: nat, errCnt: nat)
    returns (zSql': Option<string>, nSql': nat, errCnt': nat, done: bool)
    requires Settled(s.log, s.complete) && Holds(s.log, zSql, nSql)
    requires errCnt == Errors(s.log, s.meta, s.fails)
    modifies s
    ensures Settled(s.log, s.complete) && Holds(s.log, zSql', nSql')
    ensures LinesOf(s.log) == LinesOf(old(s.log)) + [zLine] && OneRound(old(s.log), s.log, s.complete)
    ensures errCnt' == Errors(s.log, s.meta, s.fails)
    ensures done <==> Quit(s.log, s.meta)
  {
    zSql', nSql', errCnt', done := zSql, nSql, errCnt, false;
    ghost var log := s.log;
    if zSql.None? {
      var blank := AllWhitespace(zLine, 0);
      if blank {
        s.Add(Skip(zLine));
        Extended(log, Skip(zLine), s.complete);
        Snoc(log, Skip(zLine));
        return;
      }
      if zLine[0] == '.' {
        errCnt', done := TakeMeta(s, zLine, errCnt);
        return;
      }
    }
    zSql', nSql', errCnt' := TakeSql(s, zLine, zSql, nSql, errCnt);
  }

  /** Between rounds: the log is legal and settled, the buffer holds the pending
      lines, and the errors have been counted. */
  ghost predicate BetweenRounds(s: Session, zSql: Option<string>, nSql: nat, errCnt: nat)
    reads s
  {
    Settled(s.log, s.complete) && Holds(s.log, zSql, nSql) && errCnt == Errors(s.log, s.meta, s.fails)
  }

  /** The log has the lines between the two positions. */
  ghost predicate Covered(t: string, start: nat, pos: nat, log: Log) {
    && start <= pos <= |t|
    && (NUL !in t ==> LinesOf(log) + FileLines(t, pos) == FileLines(t, start))
  }

  lemma {:induction false} CoverLine(t: string, start: nat, pos: nat, log: Log, log': Log)
    requires Covered(t, start, pos, log) && pos < |t|
    requires LinesOf(log') == LinesOf(log) + [LineAt(t, pos)]
    ensures Covered(t, start, NextLine(t, pos), log')
  {
    var line, rest := LineAt(t, pos), FileLines(t, NextLine(t, pos));
    assert LinesOf(log) + [line] + rest == LinesOf(log) + ([line] + rest);
  }

  /** One round of the loop, `done` if there is no further one. */
  method Round(s: Session, input: Input, unit: nat, zSql: Option<string>, nSql: nat, errCnt: nat, ghost start: nat)
    returns (zSql': Option<string>, nSql': nat, errCnt': nat, done: bool)
    requires BetweenRounds(s, zSql, nSql, errCnt) && Covered(input.text, start, input.pos, s.log) && unit >= 2
    modifies s, input
    ensures BetweenRounds(s, zSql', nSql', errCnt') && Covered(input.text, start, input.pos, s.log)
    ensures done ==> input.pos == |input.text| || Quit(s.log, s.meta)
    ensures !done ==> old(input.pos) < input.pos && !Quit(s.log, s.meta)
    ensures s.log == old(s.log) || OneRound(old(s.log), s.log, s.complete)
  {
    zSql', nSql', errCnt', done := zSql, nSql, errCnt, false;
    ghost var t, pos, log := input.text, input.pos, s.log;
    var zLine := OneInputLine(input, unit);
    if zLine.None? {
      done := true;
    } else {
      zSql', nSql', errCnt', done := TakeLine(s, zLine.value, zSql, nSql, errCnt);
      if NUL !in t {
        CoverLine(t, start, pos, log, s.log);
      }
    }
  }

  /** The loop of `process_input`. */
  method Rounds(s: Session, input: Input, unit: nat) returns (errCnt: nat, zSql: Option<string>)
    requires s.log == [] && input.pos <= |input.text| && unit >= 2
    modifies s, input
    ensures Settled(s.log, s.complete) && Covered(input.text, old(input.pos), input.pos, s.log)
    ensures errCnt == Errors(s.log, s.meta, s.fails)
    ensures input.pos == |input.text| || Quit(s.log, s.meta) || (errCnt > 0 && s.bails(s.log))
    ensures zSql == if Pending(s.log) == [] then None else Some(Joined(Pending(s.log)))
    ensures Continued(s.log, s)
  {
    var nSql: nat := 0;
    zSql, errCnt := None, 0;
    ghost var start := input.pos;
    while errCnt == 0 || !s.bails(s.log)
      invariant BetweenRounds(s, zSql, nSql, errCnt) && Covered(input.text, start, input.pos, s.log)
      invariant Continued(s.log, s) && !Quit(s.log, s.meta)
      decreases |input.text| - input.pos
    {
      ghost var log := s.log;
      var done;
      zSql, nSql, errCnt, done := Round(s, input, unit, zSql, nSql, errCnt, start);
      if s.log != log {
        ContinuedOn(log, s.log, s);
      }
      if done {
        break;
      }
    }
  }

  /** Conservation on the file, once it has been read to its end. */
  lemma {:induction false} FileAccounted(t: string, start: nat, pos: nat, log: Log, complete: Completeness)
    requires Settled(log, complete) && Covered(t, start, pos, log)
    ensures NUL !in t && pos == |t| ==>
      var lines := FileLines(t, start);
      Accounted(lines, log) && Progress(Statements(log), Pending(log)) == Gathered(lines, complete)
  {
    Conserved(log, complete);
    LogGathers(log, complete);
    assert LinesOf(log) + [] == LinesOf(log);
  }

  /** `process_input`.  The log is legal and holds the lines that were read, in order;
      the loop goes on to the end of the input unless a command ends it or an error
      must, and never further; what is left over is reported if it is more than blanks.  Of an input that
      was read to its end all lines are accounted for. */
  method ProcessInput(s: Session, input: Input, unit: nat) returns (errCnt: nat, incomplete: Option<string>)
    requires s.log == [] && input.pos <= |input.text| && unit >= 2
    modifies s, input
    ensures Settled(s.log, s.complete) && Covered(input.text, old(input.pos), input.pos, s.log)
    ensures errCnt == Errors(s.log, s.meta, s.fails)
    ensures input.pos == |input.text| || MustStop(s.log, s.meta, s.fails, s.bails)
    ensures Continued(s.log, s)
    ensures incomplete == if BlankText(Joined(Pending(s.log)), 0) then None else Some(Joined(Pending(s.log)))
    ensures NUL !in input.text && input.pos == |input.text| ==>
      var lines := FileLines(input.text, old(input.pos));
      && Accounted(lines, s.log)
      && Progress(Statements(s.log), Pending(s.log)) == Gathered(lines, s.complete)
  {
    ghost var start := input.pos;
    var zSql;
    errCnt, zSql := Rounds(s, input, unit);
    FileAccounted(input.text, start, input.pos, s.log, s.complete);
    incomplete := None;
    BlankMeaning(Joined(Pending(s.log)), 0);
    if zSql.Some? {
      var blank := AllWhitespace(zSql.value, 0);
      if !blank {
        incomplete := zSql;
      }
    }
  }
}
