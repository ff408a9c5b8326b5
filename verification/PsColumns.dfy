/** Columns of `ps -o` and the line buffer for them (sys/ps.c). */
module PsColumns {
  import opened CText
  import opened TextLayout
  import opened Wrappers

  /** What must be read about processes. */
  datatype Scan = UidGid | Comm | Pid | Ppid | Pgid | StartTime | Stime | Utime | Tty | Vsz | Rss | Context

  /** An output column; the width is a 16-bit number. */
  datatype Column = Column(width: nat, name: string, header: string, flags: set<Scan>)

  const WIDTHS := 65536

  /** The columns that are always known. */
  function BaseSpec(): seq<Column> {
    [Column(8, "user", "USER", {UidGid}), Column(16, "comm", "COMMAND", {Comm}),
     Column(256, "args", "COMMAND", {Comm}), Column(5, "pid", "PID", {Pid}),
     Column(5, "ppid", "PPID", {Ppid}), Column(5, "pgid", "PGID", {Pgid})]
  }

  /** The table of known columns, depending on how the program is configured. */
  function OutSpec(time: bool, selinux: bool): seq<Column> {
    BaseSpec()
    + (if time then [Column(7, "etime", "ELAPSED", {StartTime}), Column(6, "time", "TIME", {Stime, Utime})] else [])
    + [Column(6, "tty", "TT", {Tty}), Column(4, "vsz", "VSZ", {Vsz}), Column(4, "rss", "RSS", {Rss})]
    + (if selinux then [Column(35, "label", "LABEL", {Context})] else [])
  }

  // ------------------------------------------------------------------ parsing

  /** The first column of that name. */
  function Lookup(table: seq<Column>, name: string): Option<Column> {
    if table == [] then None
    else if table[0].name == name then Some(table[0])
    else Lookup(table[1..], name)
  }

  /** The texts between commas from `at` on and before `end`. */
  function Names(text: string, at: nat, end: nat): seq<string>
    requires at <= end <= |text|
    decreases end - at
  {
    var k := Find(text, at, ',');
    if k < end then [text[at..k]] + Names(text, k + 1, end) else [text[at..end]]
  }

  function Commas(names: seq<string>): string {
    if names == [] then ""
    else if |names| == 1 then names[0]
    else names[0] + ("," + Commas(names[1..]))
  }

  lemma CommasStep(a: string, rest: seq<string>)
    requires rest != []
    ensures Commas([a] + rest) == a + ("," + Commas(rest))
  {
    assert ([a] + rest)[1..] == rest;
  }

  lemma {:induction false} NamesJoin(text: string, at: nat, end: nat)
    requires at <= end <= |text|
    ensures Names(text, at, end) != [] && Commas(Names(text, at, end)) == text[at..end]
    decreases end - at
  {
    var k := Find(text, at, ',');
    FindMeaning(text, at, ',');
    if k >= end {
    } else {
      NamesJoin(text, k + 1, end);
      CommasStep(text[at..k], Names(text, k + 1, end));
      assert text[at..end] == text[at..k] + ("," + text[k + 1..end]);
    }
  }

  ghost predicate WithoutCommas(names: seq<string>) {
    forall i | 0 <= i < |names| :: ',' !in names[i]
  }

  lemma {:induction false} NamesWithoutCommas(text: string, at: nat, end: nat)
    requires at <= end <= |text|
    ensures WithoutCommas(Names(text, at, end))
    decreases end - at
  {
    FindMeaning(text, at, ',');
    if Find(text, at, ',') >= end {
    } else {
      NamesWithoutCommas(text, Find(text, at, ',') + 1, end);
    }
  }

  /** The names are the text, cut at its commas and nowhere else. */
  lemma NamesMeaning(text: string, at: nat, end: nat)
    requires at <= end <= |text|
    ensures Names(text, at, end) != [] && Commas(Names(text, at, end)) == text[at..end]
    ensures WithoutCommas(Names(text, at, end))
  {
    NamesJoin(text, at, end);
    NamesWithoutCommas(text, at, end);
  }

  function After(done: seq<Column>, rest: Option<seq<Column>>): Option<seq<Column>> {
    if rest.None? then None else Some(done + rest.value)
  }

  /** The columns of the names, if all are known. */
  function Looked(table: seq<Column>, names: seq<string>): Option<seq<Column>> {
    if names == [] then Some([])
    else if Lookup(table, names[0]).None? then None
    else After([Lookup(table, names[0]).value], Looked(table, names[1..]))
  }

  /** A column with the header that the user has given; an empty one leaves the width. */
  function Headed(c: Column, header: string): Column {
    if header == "" then c.(header := "") else c.(header := header, width := |header| % WIDTHS)
  }

  /** Where the header of an option begins with its equals sign, if it has one. */
  function EqualSign(text: string): (e: nat)
    ensures e <= |text|
  {
    Find(text, 0, '=')
  }

  /** The last column of an option, with its header if there is an equals sign. */
  function LastColumn(c: Column, text: string): Column {
    var e := EqualSign(text);
    if e < |text| then Headed(c, text[e + 1..]) else c
  }

  /** The columns of one option: those named before the first equals sign, the last
      with all that follows as its header. */
  function Parsed(table: seq<Column>, text: string): Option<seq<Column>> {
    var e := EqualSign(text);
    match Looked(table, Names(text, 0, e))
    case None => None
    case Some(columns) =>
      if columns == [] then None else Some(columns[..|columns| - 1] + [LastColumn(columns[|columns| - 1], text)])
  }

  lemma {:induction false} FindFrom(t: string, i: nat, j: nat, c: char)
    requires i <= |t| && i <= j <= Find(t, i, c)
    ensures Find(t, j, c) == Find(t, i, c)
    decreases j - i
  {
    if i == j {
    } else {
      FindFrom(t, i + 1, j, c);
    }
  }

  /** Column options, the columns they have given so far, and the line buffer. */
  class Ps {
    const outSpec: seq<Column>
    var columns: seq<Column>
    var printHeader: bool
    var needFlags: set<Scan>
    var buffer: array<char>

    constructor (outSpec: seq<Column>)
      ensures this.outSpec == outSpec && columns == [] && !printHeader && needFlags == {} && fresh(buffer)
    {
      this.outSpec, columns, printHeader, needFlags := outSpec, [], false, {};
      buffer := new char[0];
    }

    method NewOut(c: Column)
      modifies this`columns
      ensures columns == old(columns) + [c]
    {
      columns := columns + [c];
    }

    /** None stands for the end of the program with an error message. */
    method FindOutSpec(name: string) returns (r: Option<Column>)
      ensures r == Lookup(outSpec, name)
    {
      assert outSpec[0..] == outSpec;
      for i := 0 to |outSpec|
        invariant Lookup(outSpec, name) == Lookup(outSpec[i..], name)
      {
        assert outSpec[i..][1..] == outSpec[i + 1..];
        if name == outSpec[i].name {
          return Some(outSpec[i]);
        }
      }
      return None;
    }
  }

  /** Where the next `c` stands, or the end of the string. */
  method Strchr(a: array<char>, at: nat, c: char, ghost text: string) returns (k: nat)
    requires StandsAt(a, 0, text) && NUL !in text && at <= |text| && c != NUL
    ensures k == Find(text, at, c)
  {
    k := at;
    while a[k] != NUL && a[k] != c
      invariant at <= k <= |text| && Find(text, k, c) == Find(text, at, c)
      decreases |text| - k
    {
      assert a[0 + k] == text[k];
      k := k + 1;
    }
    assert k < |text| ==> a[0 + k] == text[k];
  }

  lemma AtNul(a: array<char>, text: string, k: nat)
    requires StandsAt(a, 0, text) && NUL !in text && k <= |text|
    ensures a[k] == NUL <==> k == |text|
  {
    assert k < |text| ==> a[0 + k] == text[k];
  }

  /** A piece of the text that a NUL ends. */
  lemma PieceStands(a: array<char>, text: string, at: nat, k: nat)
    requires at <= k <= |text| && k < a.Length && a[k] == NUL && forall j | 0 <= j < k :: a[j] == text[j]
    ensures StandsAt(a, at, text[at..k])
  {
  }

  /** The column named by the text between the two positions: the byte behind it is
      replaced by a NUL and put back. */
  method SpecAt(ps: Ps, opt: array<char>, at: nat, k: nat, ghost text: string) returns (r: Option<Column>)
    requires StandsAt(opt, 0, text) && NUL !in text && at <= k <= |text|
    modifies opt
    ensures r == Lookup(ps.outSpec, text[at..k])
    ensures opt[..] == old(opt[..]) && StandsAt(opt, 0, text)
  {
    var c := opt[k];
    opt[k] := NUL;
    assert forall j | 0 <= j < k :: opt[j] == old(opt[0 + j]) == text[j];
    PieceStands(opt, text, at, k);
    var name := StringAt(opt, at, text[at..k]);
    r := ps.FindOutSpec(name);
    opt[k] := c;
  }

  /** The columns found so far, and what the rest of the option still adds. */
  ghost predicate Parsing(table: seq<Column>, text: string, at: nat, done: seq<Column>) {
    var e := EqualSign(text);
    at <= e && Looked(table, Names(text, 0, e)) == After(done, Looked(table, Names(text, at, e)))
  }

  lemma NextName(table: seq<Column>, text: string, at: nat, done: seq<Column>)
    requires Parsing(table, text, at, done) && Find(text, at, ',') < EqualSign(text)
    ensures var k := Find(text, at, ',');
      var c := Lookup(table, text[at..k]);
      if c.None? then Parsed(table, text) == None else Parsing(table, text, k + 1, done + [c.value])
  {
    var e, k := EqualSign(text), Find(text, at, ',');
    var rest := Names(text, k + 1, e);
    assert ([text[at..k]] + rest)[1..] == rest;
    var c, more := Lookup(table, text[at..k]), Looked(table, rest);
    if c.Some? && more.Some? {
      assert done + ([c.value] + more.value) == (done + [c.value]) + more.value;
    }
  }

  lemma LastName(table: seq<Column>, text: string, at: nat, done: seq<Column>)
    requires Parsing(table, text, at, done) && Find(text, at, ',') >= EqualSign(text)
    ensures var c := Lookup(table, text[at..EqualSign(text)]);
      Parsed(table, text) == if c.None? then None else Some(done + [LastColumn(c.value, text)])
  {
    var e := EqualSign(text);
    var c := Lookup(table, text[at..e]);
    assert Names(text, at, e) == [text[at..e]] && [text[at..e]][1..] == [];
    if c.Some? {
      assert [c.value] + [] == [c.value];
      var columns := done + [c.value];
      assert Looked(table, [text[at..e]]) == After([c.value], Some([])) == Some([c.value]);
      assert Looked(table, Names(text, 0, e)) == Some(columns);
      assert columns[..|columns| - 1] == done;
    }
  }

  /** Does the option call for a header line? */
  predicate AsksForHeader(text: string) {
    var e := EqualSign(text);
    e == |text| || text[e + 1..] != ""
  }

  /** The text behind the equals sign. */
  method HeaderAt(opt: array<char>, equal: nat, ghost text: string) returns (header: string)
    requires StandsAt(opt, 0, text) && NUL !in text && equal < |text|
    ensures header == text[equal + 1..]
  {
    assert forall j | 0 <= j < |text| :: opt[j] == opt[0 + j] == text[j];
    PieceStands(opt, text, equal + 1, |text|);
    header := StringAt(opt, equal + 1, text[equal + 1..]);
  }

  /** The last column of an option, which may have a header. */
  method TakeLast(ps: Ps, opt: array<char>, at: nat, equal: nat, ghost text: string) returns (ok: bool)
    requires StandsAt(opt, 0, text) && NUL !in text && at <= equal == EqualSign(text)
    modifies ps`columns, ps`printHeader, opt
    ensures opt[..] == old(opt[..])
    ensures ok <==> Lookup(ps.outSpec, text[at..equal]).Some?
    ensures ok ==> ps.columns == old(ps.columns) + [LastColumn(Lookup(ps.outSpec, text[at..equal]).value, text)]
    ensures ok ==> ps.printHeader == (old(ps.printHeader) || AsksForHeader(text))
  {
    var spec := SpecAt(ps, opt, at, equal, text);
    ok := spec.Some?;
    if ok {
      var c := spec.value;
      AtNul(opt, text, equal);
      if opt[equal] != NUL {
        var header := HeaderAt(opt, equal, text);
        c := c.(header := header);
        if header != "" {
          c := c.(width := |header| % WIDTHS);
          ps.printHeader := true;
        }
      } else {
        ps.printHeader := true;
      }
      ps.NewOut(c);
    }
  }

  /** The next comma and the next equals sign. */
  method NextSigns(opt: array<char>, at: nat, ghost text: string) returns (comma: nat, equal: nat)
    requires StandsAt(opt, 0, text) && NUL !in text && at <= EqualSign(text)
    ensures comma == Find(text, at, ',') && equal == EqualSign(text)
    ensures (opt[comma] == NUL <==> comma == |text|) && (opt[equal] == NUL <==> equal == |text|)
  {
    FindFrom(text, 0, at, '=');
    comma := Strchr(opt, at, ',', text);
    equal := Strchr(opt, at, '=', text);
    AtNul(opt, text, comma);
    AtNul(opt, text, equal);
  }

  /** One round of the loop of `parse_o`. */
  method TakeName(ps: Ps, opt: array<char>, at: nat, comma: nat, ghost text: string, ghost done: seq<Column>)
    returns (ok: bool, ghost done': seq<Column>)
    requires StandsAt(opt, 0, text) && NUL !in text && Parsing(ps.outSpec, text, at, done)
    requires comma == Find(text, at, ',') < EqualSign(text)
    modifies ps`columns, opt
    ensures opt[..] == old(opt[..]) && StandsAt(opt, 0, text)
    ensures !ok ==> Parsed(ps.outSpec, text) == None
    ensures ok ==> Parsing(ps.outSpec, text, comma + 1, done')
    ensures ok ==> |done'| == |done| + 1 && done' == done + [done'[|done|]]
    ensures ok ==> ps.columns == old(ps.columns) + [done'[|done|]]
  {
    NextName(ps.outSpec, text, at, done);
    var spec := SpecAt(ps, opt, at, comma, text);
    ok := spec.Some?;
    done' := done;
    if ok {
      ps.NewOut(spec.value);
      done' := done + [spec.value];
    }
  }

  lemma StartParsing(table: seq<Column>, text: string)
    ensures Parsing(table, text, 0, [])
  {
    var found := Looked(table, Names(text, 0, EqualSign(text)));
    assert found.Some? ==> [] + found.value == found.value;
  }

  /** The loop of `parse_o`: all columns but the last. */
  method TakeNames(ps: Ps, opt: array<char>, ghost text: string) returns (ok: bool, at: nat, equal: nat, ghost done: seq<Column>)
    requires StandsAt(opt, 0, text) && NUL !in text
    modifies ps`columns, opt
    ensures opt[..] == old(opt[..]) && StandsAt(opt, 0, text)
    ensures !ok ==> Parsed(ps.outSpec, text) == None
    ensures ok ==> Parsing(ps.outSpec, text, at, done) && Find(text, at, ',') >= EqualSign(text) == equal
    ensures ok ==> ps.columns == old(ps.columns) + done
  {
    ok, at, done := true, 0, [];
    StartParsing(ps.outSpec, text);
    var comma;
    comma, equal := NextSigns(opt, at, text);
    while opt[comma] != NUL && (opt[equal] == NUL || equal > comma)
      invariant opt[..] == old(opt[..]) && StandsAt(opt, 0, text)
      invariant Parsing(ps.outSpec, text, at, done) && ps.columns == old(ps.columns) + done
      invariant comma == Find(text, at, ',') && equal == EqualSign(text)
      invariant (opt[comma] == NUL <==> comma == |text|) && (opt[equal] == NUL <==> equal == |text|)
      decreases |text| - at
    {
      ok, done := TakeName(ps, opt, at, comma, text, done);
      if !ok {
        return;
      }
      at := comma + 1;
      comma, equal := NextSigns(opt, at, text);
    }
  }

  /** Takes one option.  If all its columns are known they are added in order, and the
      option is left as it was; otherwise the program ends. */
  method ParseO(ps: Ps, opt: array<char>, ghost text: string) returns (ok: bool)
    requires StandsAt(opt, 0, text) && NUL !in text
    modifies ps`columns, ps`printHeader, opt
    ensures ok <==> Parsed(ps.outSpec, text).Some?
    ensures opt[..] == old(opt[..])
    ensures ok ==> ps.columns == old(ps.columns) + Parsed(ps.outSpec, text).value
    ensures ok ==> ps.printHeader == (old(ps.printHeader) || AsksForHeader(text))
  {
    var at, equal;
    ghost var done;
    ok, at, equal, done := TakeNames(ps, opt, text);
    if ok {
      LastName(ps.outSpec, text, at, done);
      ok := TakeLast(ps, opt, at, equal, text);
    }
  }

  // ---------------------------------------------------------------- the header

  /** Room that `post_process` reckons: every column and a blank behind it. */
  function TotalWidth(columns: seq<Column>, i: nat): nat
    requires i <= |columns|
    decreases |columns| - i
  {
    if i == |columns| then 0 else columns[i].width + 1 + TotalWidth(columns, i + 1)
  }

  /** The header line from column `i` on; the last column is not padded. */
  function HeaderLine(columns: seq<Column>, i: nat): string
    requires i <= |columns|
    decreases |columns| - i
  {
    if i == |columns| then ""
    else if i + 1 == |columns| then columns[i].header
    else (Padded(columns[i].header, columns[i].width) + " ") + HeaderLine(columns, i + 1)
  }

  /** The header is no longer than the column is wide. */
  predicate Fits(c: Column) {
    |c.header| <= c.width
  }

  ghost predicate AllFit(columns: seq<Column>, i: nat) {
    forall k | i <= k < |columns| :: Fits(columns[k])
  }

  /** The width is right up to a multiple of 65536, and does not exceed the header by
      as much as that. */
  predicate Regular(c: Column) {
    (Fits(c) && c.width - |c.header| + 1 < WIDTHS) || |c.header| >= c.width + WIDTHS
  }

  ghost predicate AllRegular(columns: seq<Column>) {
    forall k | 0 <= k < |columns| :: Regular(columns[k])
  }

  /** A column as the table of known columns has them. */
  predicate Standard(c: Column) {
    c.header != "" && NUL !in c.header && Fits(c) && c.width + 1 < WIDTHS
  }

  ghost predicate AllStandard(columns: seq<Column>) {
    forall k | 0 <= k < |columns| :: Standard(columns[k])
  }

  /** Where column `k` begins on every line. */
  function ColumnStart(columns: seq<Column>, k: nat): nat
    requires k <= |columns|
  {
    if k == 0 then 0 else ColumnStart(columns, k - 1) + columns[k - 1].width + 1
  }

  /** The header of column `k` stands where the column begins, with nothing but blanks
      between it and the next; the last one ends the line. */
  ghost predicate InPlace(line: string, columns: seq<Column>, k: nat)
    requires k < |columns|
  {
    var c := columns[k];
    InField(line, ColumnStart(columns, k), c.header, if k + 1 < |columns| then c.width + 1 else |c.header|)
  }

  /** The blank behind a padded header is one more blank. */
  lemma OneWider(s: string, width: nat)
    requires |s| <= width
    ensures Padded(s, width) + " " == Padded(s, width + 1)
  {
    var n := width - |s|;
    SpacesAreBlank(n);
    SpacesAreBlank(n + 1);
    assert Spaces(n) + " " == Spaces(n + 1);
    AppendAssoc(s, Spaces(n), " ");
    assert s + Spaces(0) == s;
  }

  /** What is printed for a column that is not the last. */
  function Printed(c: Column): string {
    Padded(c.header, c.width) + " "
  }

  lemma HeaderStep(columns: seq<Column>, k: nat)
    requires k + 1 < |columns|
    ensures HeaderLine(columns, k) == Printed(columns[k]) + HeaderLine(columns, k + 1)
  {
  }

  /** The line is `p`, up to where column `k` begins, and the headers from there on. */
  ghost predicate CutAt(line: string, columns: seq<Column>, k: nat, p: string)
    requires k <= |columns|
  {
    line == p + HeaderLine(columns, k) && |p| == ColumnStart(columns, k)
  }

  lemma CutOn(line: string, columns: seq<Column>, k: nat, p: string)
    requires k + 1 < |columns| && Fits(columns[k]) && CutAt(line, columns, k, p)
    ensures CutAt(line, columns, k + 1, p + Printed(columns[k]))
  {
    HeaderStep(columns, k);
    AppendAssoc(p, Printed(columns[k]), HeaderLine(columns, k + 1));
  }

  lemma HeaderStands(line: string, columns: seq<Column>, k: nat, p: string)
    requires k < |columns| && Fits(columns[k]) && CutAt(line, columns, k, p)
    ensures InPlace(line, columns, k)
  {
    var c := columns[k];
    if k + 1 < |columns| {
      HeaderStep(columns, k);
      OneWider(c.header, c.width);
      PaddedInField(p, c.header, c.width + 1, HeaderLine(columns, k + 1));
    } else {
      PaddedInField(p, c.header, |c.header|, "");
      assert c.header + "" == c.header;
    }
  }

  ghost predicate InPlaceFrom(line: string, columns: seq<Column>, k: nat) {
    forall j | k <= j < |columns| :: InPlace(line, columns, j)
  }

  lemma {:induction false} HeadersStandFrom(line: string, columns: seq<Column>, k: nat, p: string)
    requires k < |columns| && AllFit(columns, k) && CutAt(line, columns, k, p)
    ensures InPlaceFrom(line, columns, k)
    decreases |columns| - k
  {
    assert Fits(columns[k]);
    HeaderStands(line, columns, k, p);
    if k + 1 == |columns| {
    } else {
      CutOn(line, columns, k, p);
      HeadersStandFrom(line, columns, k + 1, p + Printed(columns[k]));
    }
  }

  /** When all headers fit, every one stands where its column begins. */
  lemma HeadersStand(columns: seq<Column>)
    requires AllFit(columns, 0)
    ensures InPlaceFrom(HeaderLine(columns, 0), columns, 0)
  {
    if columns != [] {
      NothingBefore(HeaderLine(columns, 0));
      HeadersStandFrom(HeaderLine(columns, 0), columns, 0, "");
    }
  }

  /** The room reckoned for a line ends where one more column would begin. */
  lemma {:induction false} RoomIsEnd(columns: seq<Column>, k: nat)
    requires k <= |columns|
    ensures ColumnStart(columns, k) + TotalWidth(columns, k) == ColumnStart(columns, |columns|)
    decreases |columns| - k
  {
    if k == |columns| {
    } else {
      RoomIsEnd(columns, k + 1);
    }
  }

  lemma TableIsStandard(time: bool, selinux: bool)
    ensures AllStandard(OutSpec(time, selinux))
  {
    assert AllStandard(BaseSpec());
  }

  /** Entry `k` is the first of that name. */
  ghost predicate FirstNamed(table: seq<Column>, name: string, k: nat) {
    k < |table| && table[k].name == name && forall j | 0 <= j < k :: table[j].name != name
  }

  lemma {:induction false} LookupIsFirst(table: seq<Column>, name: string)
    ensures match Lookup(table, name)
            case Some(c) => exists k: nat :: FirstNamed(table, name, k) && table[k] == c
            case None => forall k | 0 <= k < |table| :: table[k].name != name
    decreases |table|
  {
    if table == [] {
    } else if table[0].name == name {
      assert FirstNamed(table, name, 0);
    } else {
      LookupIsFirst(table[1..], name);
      if Lookup(table[1..], name).Some? {
        var k: nat :| FirstNamed(table[1..], name, k) && table[1..][k] == Lookup(table[1..], name).value;
        assert FirstNamed(table, name, k + 1);
      }
    }
  }

  lemma {:induction false} LookedAreStandard(table: seq<Column>, names: seq<string>)
    requires AllStandard(table)
    ensures var columns := Looked(table, names);
      columns.Some? ==> |columns.value| == |names| && AllStandard(columns.value)
    decreases |names|
  {
    if names == [] {
    } else {
      LookupIsFirst(table, names[0]);
      LookedAreStandard(table, names[1..]);
    }
  }

  lemma {:induction false} LookedAreNamed(table: seq<Column>, names: seq<string>)
    requires Looked(table, names).Some?
    ensures var columns := Looked(table, names).value;
      && |columns| == |names|
      && forall k | 0 <= k < |names| :: Some(columns[k]) == Lookup(table, names[k]) && columns[k].name == names[k]
    decreases |names|
  {
    if names == [] {
    } else {
      LookupIsFirst(table, names[0]);
      LookedAreNamed(table, names[1..]);
    }
  }

  lemma HeadedFits(c: Column, text: string)
    requires Standard(c)
    ensures Regular(LastColumn(c, text))
    ensures Fits(LastColumn(c, text)) <==> |text| - EqualSign(text) - 1 < WIDTHS
  {
    var e := EqualSign(text);
    if e < |text| {
      var h := |text[e + 1..]|;
      assert h == WIDTHS * (h / WIDTHS) + h % WIDTHS;
    }
  }

  /** Up to the last column, and through it without an equals sign, the columns are those
      of the table with the names of the option. */
  lemma ParsedNames(table: seq<Column>, text: string)
    requires Parsed(table, text).Some?
    ensures var columns, names := Parsed(table, text).value, Names(text, 0, EqualSign(text));
      && |columns| == |names| > 0
      && forall k | 0 <= k < |names| ::
           columns[k].name == names[k]
           && (k + 1 < |names| || EqualSign(text) == |text| ==> Some(columns[k]) == Lookup(table, names[k]))
  {
    var names := Names(text, 0, EqualSign(text));
    var columns, found := Parsed(table, text).value, Looked(table, names).value;
    NamesMeaning(text, 0, EqualSign(text));
    LookedAreNamed(table, names);
    assert forall k | 0 <= k < |found| - 1 :: columns[k] == found[k];
  }

  /** A header that the user gives, of fewer than 65536 bytes, makes the last column
      exactly that wide, be it more or less than before. */
  lemma GivenHeader(table: seq<Column>, text: string)
    requires Parsed(table, text).Some? && EqualSign(text) < |text|
    ensures var columns, header := Parsed(table, text).value, text[EqualSign(text) + 1..];
      && columns != [] && columns[|columns| - 1].header == header
      && (0 < |header| < WIDTHS ==> columns[|columns| - 1].width == |header|)
  {
    var found := Looked(table, Names(text, 0, EqualSign(text))).value;
    assert Parsed(table, text).value[|found| - 1] == LastColumn(found[|found| - 1], text);
  }

  /** The columns of an option are regular, and they all fit exactly if its header has
      fewer than 65536 bytes. */
  lemma ParsedFit(table: seq<Column>, text: string)
    requires AllStandard(table) && Parsed(table, text).Some?
    ensures var columns := Parsed(table, text).value;
      && AllRegular(columns)
      && (AllFit(columns, 0) <==> |text| - EqualSign(text) - 1 < WIDTHS)
  {
    var e := EqualSign(text);
    var names := Names(text, 0, e);
    LookedAreStandard(table, names);
    var found := Looked(table, names).value;
    var n := |found| - 1;
    var columns := Parsed(table, text).value;
    assert columns == found[..n] + [LastColumn(found[n], text)];
    assert forall k | 0 <= k < n :: columns[k] == found[k];
    HeadedFits(found[n], text);
    assert columns[n] == LastColumn(found[n], text);
  }

  /** A line lacks less than 65536 bytes of its room. */
  lemma {:induction false} LineNotShorter(columns: seq<Column>, i: nat)
    requires i < |columns| && AllRegular(columns)
    ensures TotalWidth(columns, i) < |HeaderLine(columns, i)| + WIDTHS
    decreases |columns| - i
  {
    assert Regular(columns[i]);
    if i + 1 < |columns| {
      LineNotShorter(columns, i + 1);
    } else {
      assert TotalWidth(columns, i) == columns[i].width + 1 + TotalWidth(columns, i + 1);
    }
  }

  /** The line goes by what each column is too short or too wide. */
  lemma {:induction false} LineOrOver(columns: seq<Column>, i: nat)
    requires i < |columns| && AllRegular(columns)
    ensures AllFit(columns, i) ==> |HeaderLine(columns, i)| < TotalWidth(columns, i)
    ensures !AllFit(columns, i) ==> |HeaderLine(columns, i)| > TotalWidth(columns, i)
    decreases |columns| - i
  {
    var c := columns[i];
    assert Regular(c);
    if i + 1 < |columns| {
      LineOrOver(columns, i + 1);
      LineNotShorter(columns, i + 1);
      assert AllFit(columns, i) <==> Fits(c) && AllFit(columns, i + 1);
    } else {
      assert AllFit(columns, i) <==> Fits(c);
      assert TotalWidth(columns, i) == c.width + 1 + TotalWidth(columns, i + 1);
    }
  }

  // ---------------------------------------------------------- several options

  /** The columns of all options in order, if all names are known. */
  function AllParsed(table: seq<Column>, texts: seq<string>): Option<seq<Column>> {
    if texts == [] then Some([])
    else
      var before, last := AllParsed(table, texts[..|texts| - 1]), Parsed(table, texts[|texts| - 1]);
      if before.None? || last.None? then None else Some(before.value + last.value)
  }

  /** The option has a header that is too long for a 16-bit width. */
  predicate LongHeader(text: string) {
    |text| - EqualSign(text) - 1 >= WIDTHS
  }

  lemma FitConcat(a: seq<Column>, b: seq<Column>)
    ensures AllFit(a + b, 0) <==> AllFit(a, 0) && AllFit(b, 0)
    ensures AllRegular(a) && AllRegular(b) ==> AllRegular(a + b)
  {
    assert forall k | 0 <= k < |a| :: (a + b)[k] == a[k];
    assert forall k | 0 <= k < |b| :: (a + b)[|a| + k] == b[k];
  }

  lemma {:induction false} AllParsedFit(table: seq<Column>, texts: seq<string>)
    requires AllStandard(table) && AllParsed(table, texts).Some?
    ensures var columns := AllParsed(table, texts).value;
      && AllRegular(columns)
      && (AllFit(columns, 0) <==> forall k | 0 <= k < |texts| :: !LongHeader(texts[k]))
    decreases |texts|
  {
    if texts == [] {
    } else {
      var init, last := texts[..|texts| - 1], texts[|texts| - 1];
      var a, b := AllParsed(table, init).value, Parsed(table, last).value;
      AllParsedFit(table, init);
      ParsedFit(table, last);
      FitConcat(a, b);
      assert forall k | 0 <= k < |init| :: texts[k] == init[k];
    }
  }

  lemma ParsedNotEmpty(table: seq<Column>, texts: seq<string>)
    requires AllParsed(table, texts).Some? && texts != []
    ensures AllParsed(table, texts).value != []
  {
    assert Parsed(table, texts[|texts| - 1]).value != [];
  }

  /** With any options the header line and its NUL fit the buffer that was reckoned for
      them exactly if no header has 65536 bytes or more. */
  lemma HeaderFitsIff(table: seq<Column>, texts: seq<string>)
    requires AllStandard(table) && texts != [] && AllParsed(table, texts).Some?
    ensures var columns := AllParsed(table, texts).value;
      |HeaderLine(columns, 0)| + 1 <= TotalWidth(columns, 0) + 1 <==>
      forall k | 0 <= k < |texts| :: !LongHeader(texts[k])
  {
    AllParsedFit(table, texts);
    ParsedNotEmpty(table, texts);
    LineOrOver(AllParsed(table, texts).value, 0);
  }

  // ------------------------------------------------------------ writing it out

  predicate AnyHeader(columns: seq<Column>) {
    exists k: nat :: k < |columns| && columns[k].header != ""
  }

  /** Everything that the columns from `i` on need. */
  function Needed(columns: seq<Column>, i: nat): set<Scan>
    requires i <= |columns|
    decreases |columns| - i
  {
    if i == |columns| then {} else columns[i].flags + Needed(columns, i + 1)
  }

  lemma {:induction false} NeededMeaning(columns: seq<Column>, i: nat, x: Scan)
    requires i <= |columns|
    ensures x in Needed(columns, i) <==> exists k: nat :: i <= k < |columns| && x in columns[k].flags
    decreases |columns| - i
  {
    if i == |columns| {
    } else {
      NeededMeaning(columns, i + 1, x);
    }
  }

  /** Reckons the room for a line, and what must be read about processes; `noContext`
      says that the system has no security contexts. */
  method PostProcess(ps: Ps, noContext: bool)
    modifies ps`buffer, ps`printHeader, ps`needFlags
    ensures fresh(ps.buffer) && ps.buffer.Length == TotalWidth(ps.columns, 0) + 1
    ensures ps.printHeader == (old(ps.printHeader) || AnyHeader(ps.columns))
    ensures ps.needFlags == old(ps.needFlags) + Needed(ps.columns, 0) - if noContext then {Context} else {}
  {
    var width: nat := 0;
    for i := 0 to |ps.columns|
      invariant width + TotalWidth(ps.columns, i) == TotalWidth(ps.columns, 0)
      invariant ps.needFlags + Needed(ps.columns, i) == old(ps.needFlags) + Needed(ps.columns, 0)
      invariant ps.printHeader ==
        (old(ps.printHeader) || exists k: nat :: k < i && ps.columns[k].header != "")
    {
      ps.needFlags := ps.needFlags + ps.columns[i].flags;
      if ps.columns[i].header != "" {
        ps.printHeader := true;
      }
      width := width + ps.columns[i].width + 1;
    }
    if noContext {
      ps.needFlags := ps.needFlags - {Context};
    }
    ps.buffer := new char[width + 1](_ => NUL);
  }

  /** Writes the text to index `p`. */
  method Write(buffer: array<char>, p: nat, s: string) returns (q: nat)
    requires p + |s| <= buffer.Length
    modifies buffer
    ensures q == p + |s|
    ensures forall k | 0 <= k < |s| :: buffer[p + k] == s[k]
    ensures forall k | 0 <= k < buffer.Length && !(p <= k < q) :: buffer[k] == old(buffer[k])
  {
    forall k | 0 <= k < |s| {
      buffer[p + k] := s[k];
    }
    q := p + |s|;
  }

  /** The line up to `p` is in the buffer; the rest is that of the columns from `i` on. */
  ghost predicate Writing(buffer: array<char>, p: nat, columns: seq<Column>, i: nat, line: string)
    requires i <= |columns|
    reads buffer
  {
    && At(line, p, HeaderLine(columns, i)) && p + |HeaderLine(columns, i)| == |line|
    && |line| < buffer.Length && forall k | 0 <= k < p :: buffer[k] == line[k]
  }

  lemma PiecePlaced(buffer: array<char>, line: string, p: nat, text: string)
    requires At(line, p, text) && p + |text| <= buffer.Length
    requires forall k | 0 <= k < |text| :: buffer[p + k] == text[k]
    requires forall k | 0 <= k < p :: buffer[k] == line[k]
    ensures forall k | 0 <= k < p + |text| :: buffer[k] == line[k]
  {
    forall k | p <= k < p + |text|
      ensures buffer[k] == line[k]
    {
      assert buffer[p + (k - p)] == text[k - p] == line[p + (k - p)];
    }
  }

  method WriteColumn(buffer: array<char>, p: nat, columns: seq<Column>, i: nat, ghost line: string) returns (q: nat)
    requires i + 1 < |columns| && Writing(buffer, p, columns, i, line)
    modifies buffer
    ensures Writing(buffer, q, columns, i + 1, line)
  {
    var text := Padded(columns[i].header, columns[i].width) + " ";
    AtConcat(line, p, text, HeaderLine(columns, i + 1));
    q := Write(buffer, p, text);
    PiecePlaced(buffer, line, p, text);
  }

  method WriteLast(buffer: array<char>, p: nat, columns: seq<Column>, i: nat, ghost line: string)
    requires i + 1 == |columns| && Writing(buffer, p, columns, i, line)
    modifies buffer
    ensures StandsAt(buffer, 0, line)
  {
    var header := columns[i].header;
    var q := Write(buffer, p, header);
    PiecePlaced(buffer, line, p, header);
    buffer[q] := NUL;
  }

  /** The loop of `format_header`. */
  method WriteLine(buffer: array<char>, columns: seq<Column>)
    requires columns != [] && |HeaderLine(columns, 0)| < buffer.Length
    modifies buffer
    ensures StandsAt(buffer, 0, HeaderLine(columns, 0))
  {
    ghost var line := HeaderLine(columns, 0);
    var p, i := 0, 0;
    while i + 1 < |columns|
      invariant 0 <= i < |columns| && p >= 0 && Writing(buffer, p, columns, i, line)
    {
      p := WriteColumn(buffer, p, columns, i, line);
      i := i + 1;
    }
    WriteLast(buffer, p, columns, i, line);
  }

  /** Prints the header line, cut at the width of the terminal, if one is wanted.  It
      stays inside the buffer; headers that fit stand where their columns begin. */
  method FormatHeader(ps: Ps, out: Output, terminalWidth: nat)
    requires ps.columns != [] && |HeaderLine(ps.columns, 0)| < ps.buffer.Length
    requires NUL !in HeaderLine(ps.columns, 0)
    modifies ps.buffer, out
    ensures !ps.printHeader ==> out.text == old(out.text)
    ensures ps.printHeader ==> StandsAt(ps.buffer, 0, HeaderLine(ps.columns, 0))
    ensures ps.printHeader ==> var line := HeaderLine(ps.columns, 0);
      out.text == old(out.text) + (line[..Least(terminalWidth, |line|)] + "\n")
    ensures AllFit(ps.columns, 0) ==> InPlaceFrom(HeaderLine(ps.columns, 0), ps.columns, 0)
  {
    if AllFit(ps.columns, 0) {
      HeadersStand(ps.columns);
    }
    if ps.printHeader {
      ghost var line := HeaderLine(ps.columns, 0);
      WriteLine(ps.buffer, ps.columns);
      var text := StringAt(ps.buffer, 0, line);
      out.Put(text[..Least(terminalWidth, |text|)]);
      out.Put("\n");
    }
  }

  // ------------------------------------------------------------- the whole run

  /** Every option stands in its own argument. */
  ghost predicate Arguments(opts: seq<array<char>>, texts: seq<string>)
    reads opts
  {
    && |opts| == |texts|
    && forall k | 0 <= k < |opts| :: StandsAt(opts[k], 0, texts[k]) && NUL !in texts[k]
  }

  lemma AllParsedSnoc(table: seq<Column>, texts: seq<string>, text: string)
    ensures AllParsed(table, texts + [text])
         == if AllParsed(table, texts).None? || Parsed(table, text).None? then None
            else Some(AllParsed(table, texts).value + Parsed(table, text).value)
  {
    assert (texts + [text])[..|texts|] == texts;
  }

  lemma {:induction false} AllParsedPrefix(table: seq<Column>, texts: seq<string>, k: nat)
    requires k <= |texts| && AllParsed(table, texts[..k]).None?
    ensures AllParsed(table, texts).None?
    decreases |texts|
  {
    if k < |texts| {
      assert texts[..|texts| - 1][..k] == texts[..k];
      AllParsedPrefix(table, texts[..|texts| - 1], k);
    } else {
      assert texts[..k] == texts;
    }
  }

  /** A column asks for the header line whenever its option does. */
  lemma HeaderAsked(table: seq<Column>, text: string)
    requires AllStandard(table) && Parsed(table, text).Some? && AsksForHeader(text)
    ensures AnyHeader(Parsed(table, text).value)
  {
    var names := Names(text, 0, EqualSign(text));
    LookedAreStandard(table, names);
    var found := Looked(table, names).value;
    var columns := Parsed(table, text).value;
    assert Standard(found[|found| - 1]);
    assert columns[|columns| - 1] == LastColumn(found[|found| - 1], text);
  }

  lemma AnyHeaderConcat(a: seq<Column>, b: seq<Column>)
    ensures AnyHeader(a + b) <==> AnyHeader(a) || AnyHeader(b)
  {
    if AnyHeader(a) {
      var k: nat :| k < |a| && a[k].header != "";
      assert (a + b)[k].header != "";
    }
    if AnyHeader(b) {
      var k: nat :| k < |b| && b[k].header != "";
      assert (a + b)[|a| + k].header != "";
    }
  }

  /** The columns are those of the options, and one has a header if a header line is
      asked for. */
  predicate Collected(table: seq<Column>, texts: seq<string>, columns: seq<Column>, header: bool) {
    AllParsed(table, texts) == Some(columns) && (header ==> AnyHeader(columns))
  }

  lemma {:induction false} CollectedOn(table: seq<Column>, texts: seq<string>, i: nat, columns: seq<Column>, header: bool)
    requires i < |texts| && AllStandard(table) && Collected(table, texts[..i], columns, header)
    ensures var parsed := Parsed(table, texts[i]);
      if parsed.None? then AllParsed(table, texts).None?
      else Collected(table, texts[..i + 1], columns + parsed.value, header || AsksForHeader(texts[i]))
  {
    var text := texts[i];
    assert texts[..i + 1] == texts[..i] + [text];
    AllParsedSnoc(table, texts[..i], text);
    if Parsed(table, text).None? {
      AllParsedPrefix(table, texts, i + 1);
    } else {
      AnyHeaderConcat(columns, Parsed(table, text).value);
      if AsksForHeader(text) {
        HeaderAsked(table, text);
      }
    }
  }

  /** All options, in order. */
  method ParseAll(ps: Ps, opts: seq<array<char>>, ghost texts: seq<string>) returns (ok: bool)
    requires Arguments(opts, texts) && AllStandard(ps.outSpec) && ps.columns == [] && !ps.printHeader
    modifies ps`columns, ps`printHeader, set o | o in opts
    ensures ok <==> AllParsed(ps.outSpec, texts).Some?
    ensures ok ==> ps.columns == AllParsed(ps.outSpec, texts).value
    ensures ok ==> ps.printHeader ==> AnyHeader(ps.columns)
  {
    for i := 0 to |opts|
      invariant Arguments(opts, texts)
      invariant Collected(ps.outSpec, texts[..i], ps.columns, ps.printHeader)
    {
      CollectedOn(ps.outSpec, texts, i, ps.columns, ps.printHeader);
      var parsed := ParseO(ps, opts[i], texts[i]);
      if !parsed {
        return false;
      }
    }
    assert texts[..|texts|] == texts;
    return true;
  }

  ghost predicate HeadersClean(columns: seq<Column>) {
    forall k | 0 <= k < |columns| :: NUL !in columns[k].header
  }

  lemma ParsedClean(table: seq<Column>, text: string)
    requires AllStandard(table) && Parsed(table, text).Some? && NUL !in text
    ensures HeadersClean(Parsed(table, text).value)
  {
    var names := Names(text, 0, EqualSign(text));
    LookedAreStandard(table, names);
    var found := Looked(table, names).value;
    assert Standard(found[|found| - 1]);
  }

  lemma {:induction false} AllParsedClean(table: seq<Column>, texts: seq<string>)
    requires AllStandard(table) && AllParsed(table, texts).Some?
    requires forall k | 0 <= k < |texts| :: NUL !in texts[k]
    ensures HeadersClean(AllParsed(table, texts).value)
    decreases |texts|
  {
    if texts == [] {
    } else {
      AllParsedClean(table, texts[..|texts| - 1]);
      ParsedClean(table, texts[|texts| - 1]);
    }
  }

  lemma {:induction false} LineIsClean(columns: seq<Column>, i: nat)
    requires i <= |columns| && HeadersClean(columns)
    ensures NUL !in HeaderLine(columns, i)
    decreases |columns| - i
  {
    if i == |columns| {
    } else {
      if Fits(columns[i]) {
        SpacesAreBlank(columns[i].width - |columns[i].header|);
      }
      LineIsClean(columns, i + 1);
    }
  }

  /** The options, the room they need, and the header line, which is printed if any
      column has a header.  No option may have a header too long for a width. */
  method PrintHeader(ps: Ps, opts: seq<array<char>>, ghost texts: seq<string>, out: Output, terminalWidth: nat,
                     noContext: bool)
    returns (ok: bool)
    requires opts != [] && Arguments(opts, texts) && AllStandard(ps.outSpec) && ps.columns == [] && !ps.printHeader
    requires forall k | 0 <= k < |texts| :: !LongHeader(texts[k])
    modifies ps, out, set o | o in opts
    ensures ok <==> AllParsed(ps.outSpec, texts).Some?
    ensures ok ==> var columns := AllParsed(ps.outSpec, texts).value;
      var line := HeaderLine(columns, 0);
      && ps.columns == columns && |line| < ps.buffer.Length == TotalWidth(columns, 0) + 1
      && InPlaceFrom(line, columns, 0)
      && out.text == old(out.text) + if AnyHeader(columns) then line[..Least(terminalWidth, |line|)] + "\n" else ""
  {
    ok := ParseAll(ps, opts, texts);
    if ok {
      PostProcess(ps, noContext);
      AllParsedFit(ps.outSpec, texts);
      ParsedNotEmpty(ps.outSpec, texts);
      LineOrOver(ps.columns, 0);
      AllParsedClean(ps.outSpec, texts);
      LineIsClean(ps.columns, 0);
      FormatHeader(ps, out, terminalWidth);
    }
  }
}
