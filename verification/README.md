# Models of protocols, lists and text layers

This project models the parts of a collection of small C programs that are hard to
get right, and proves what they are for. Sizes that the programs fix as literals
(`BSIZE`, `N`, 100, 5, 50, 80) are parameters; every result holds for all of them.

| module | program |
|---|---|
| `BoundedBuffer` | producer and consumer with a mutex and two condition variables around a ring buffer (`multithreading/hcs.c`) |
| `Philosophers` | dining philosophers on semaphores (`process/philosopher.c`) |
| `PipeRing` | a ring of processes made with `pipe`, `fork` and `dup2` (`process/pipe_ring.c`) |
| `SignalPingPong` | two processes that hand a turn back and forth with signals (`sys/sigtellwait1.c`) |
| `StreamWrap` | wrappers over short reads and writes, and a line reader with read-ahead (`cgi/wrap.c`) |
| `SongList` | a linked list over a heap that may refuse to allocate (`linkedList/dlink.c`) |
| `Elimination` | the circular-list counting-out game (`1-100-3.c`) |
| `ShellEscapes`, `ShellCsv`, `ShellImport`, `ShellRoundTrip`, `ShellSql`, `ShellDump`, `ShellInput`, `ShellTables` | the text layer of the sqlite shell (`sqlite/shell.c`) |
| `PsColumns` | the `-o` columns of `ps` and the buffer for a line (`sys/ps.c`) |
| `CText`, `TextLines`, `TextLayout`, `ShellTypes`, `SqlLexer`, `Wrappers` | C strings and streams, the lines of a text, text in fields, result rows, SQL tokens, optional values |

The four concurrent programs are step systems: a state with one control point per
process, a `Step` for each atomic action, `Legal` for the schedules that can happen
and `Exec` for the state they lead to. Invariants are proved for every step, safety
for every legal schedule, and termination by a measure that every step lowers.

The sequential programs are methods over classes and arrays that follow the loops of
the source. Each method is proved against a specification function, and the laws of
the program (round trips, conservation, exact fit) are lemmas about those functions.
Where a program does not do what it is for on all inputs, a lemma gives the exact
condition: `StoppedOutcome`, `RingIff`, `DecodableIff`, `OneArgumentBack`, `RoundTripIff`,
`InsertRoundTrip`, `SelectMeans`, `FitsIff`, `HeaderFitsIff`.

Read and write calls, allocations, wake-ups, schedules, completeness of a statement,
acceptance of a row, results of commands and the reserved words of SQL are arbitrary: they are parameters
(plans, predicates, functions of what has happened) over which everything is proved.

## Model

| member | source | states |
|---|---|---|
| `BoundedBuffer.Buffer.constructor` | multithreading/hcs.c:64-84 | a buffer of any positive size starts as an empty ring |
| `BoundedBuffer.PutAppends` | multithreading/hcs.c:104-106 | storing at the write index and wrapping it appends exactly one item to the ring, also when both indices are equal |
| `BoundedBuffer.TakeRemovesFront` | multithreading/hcs.c:119-121 | fetching at the read index removes exactly the oldest item |
| `BoundedBuffer.Buffer.Produce` | multithreading/hcs.c:103-106 | the critical section appends the item to the contents |
| `BoundedBuffer.Buffer.Consume` | multithreading/hcs.c:118-121 | the critical section returns the oldest item and leaves the others in order |
| `BoundedBuffer.StepKeepsInv` | multithreading/hcs.c:98-154 | every atomic step, spurious wake-ups included, keeps mutual exclusion, ring shape, justified sleep, first-in-first-out and the output law |
| `BoundedBuffer.Safety` | multithreading/hcs.c:98-154 | in every reachable state no assert has failed, at most one process is inside, what was made is what was taken followed by the ring, sleepers have a reason or a signal coming, and never both sleep |
| `BoundedBuffer.SleepingConsumerIsOwed` | multithreading/hcs.c:116-126 | a consumer asleep on an empty ring is still owed an item |
| `BoundedBuffer.RunsAreShort` | multithreading/hcs.c:128-154 | every schedule is finite: at most 28 steps per input byte plus 26, plus three for each spurious wake-up |
| `BoundedBuffer.StoppedOutcome` | multithreading/hcs.c:128-154 | every schedule that cannot go on has printed the input up to its first NUL; the producer has finished exactly if what follows that NUL fits the buffer |
| `BoundedBuffer.OutputEqualsInput` | multithreading/hcs.c:128-154 | for input without NUL both processes finish and the output is the input |
| `Philosophers.StepKeepsInv` | process/philosopher.c:14-39 | each semaphore stays one minus the number of its holders and never negative |
| `Philosophers.Safety` | process/philosopher.c:14-39 | in every reachable state semaphores count their holders and no two neighbours eat |
| `Philosophers.NeighboursExclude` | process/philosopher.c:14-28 | the semaphore between two neighbours excludes one of them |
| `Philosophers.HoldersAreNeighbours` | process/philosopher.c:10-28 | only the two neighbours of a chopstick can hold it |
| `Philosophers.SecondRanksHigher` | process/philosopher.c:10-23 | everybody takes chopsticks upwards in the order 0, n-1, ..., 1 |
| `Philosophers.SomeHolderCanStep` | process/philosopher.c:14-23 | from any holder the waiting chain climbs the ranks to a holder that can step |
| `Philosophers.NeverDeadlocked` | process/philosopher.c:10-39 | for every n from 2 on some philosopher can step in every reachable state |
| `Philosophers.QuietRunsAreShort` | process/philosopher.c:14-28 | no more than 3n semaphore steps pass without a completed `pick_up` |
| `Philosophers.AnyoneCanStillEat` | process/philosopher.c:29-39 | from every reachable state any chosen philosopher can still come to eat |
| `PipeRing.StepKeepsControl` | process/pipe_ring.c:9-20 | whatever is open at the start, every system call of any process keeps the processes, pipes and loop positions that there are |
| `PipeRing.StepKeepsInv` | process/pipe_ring.c:9-20 | if standard input and output are open at the start, it also keeps all descriptor tables as the loop position says |
| `PipeRing.RingIff` | process/pipe_ring.c:9-20 | in every interleaving the finished processes form one cycle of N+1, and hold every pipe end once and nothing else new, exactly if standard input and output were open at the start |
| `PipeRing.EveryEndHeldOnce` | process/pipe_ring.c:9-20 | then every process reads from its own pipe through descriptor 0 and feeds the next through descriptor 1, and its other descriptors are inherited ones |
| `PipeRing.RunsEnd` | process/pipe_ring.c:9-20 | whatever is open at the start, every schedule has at most 11N+6 steps, has all of them exactly when all have left the loop, and can go on until then |
| `SignalPingPong.StepKeepsInv` | sys/sigtellwait1.c:12-76 | every statement and every signal delivery keeps exactly one token and the counter laws |
| `SignalPingPong.Safety` | sys/sigtellwait1.c:39-76 | in every reachable state exactly one token exists, stores alternate from the parent on and none is lost, and no load or store comes between another's |
| `SignalPingPong.NoSignalLost` | sys/sigtellwait1.c:12-15 | a signal never arrives on top of an unanswered one |
| `SignalPingPong.RunsFinish` | sys/sigtellwait1.c:47-76 | at most 16k+7 steps are anything but idle polls, and an unfinished schedule always has another such step |
| `SignalPingPong.FinalCount` | sys/sigtellwait1.c:39-76 | with k rounds each a finished schedule has counted to 2k+1 |
| `StreamWrap.Readn` | cgi/wrap.c:100-121 | over any schedule of short reads and interrupts the bytes taken are the bytes stored, in order; fewer than asked only at the end; -1 exactly if the last call made failed for another reason than an interrupt, and no call before it did |
| `StreamWrap.Writen` | cgi/wrap.c:123-142 | all bytes are written and no call made failed or took nothing; or the last call did, the result is -1, and a proper prefix is written |
| `StreamWrap.LineReader.Refill` | cgi/wrap.c:150-159 | an uninterrupted read leaves read-ahead plus unread input as it was |
| `StreamWrap.LineReader.MyRead` | cgi/wrap.c:144-163 | one byte comes off the plain stream, 0 only at its end, -1 exactly if the last call made failed |
| `StreamWrap.LineReader.Readline` | cgi/wrap.c:165-183 | stores the next bytes through the first newline, at most maxlen-1, and a NUL, touches nothing behind, and the stream goes on right after the line; the result counts the bytes, and one more if the line is cut; it is -1 exactly if the last call made failed |
| `StreamWrap.LinesJoin` | cgi/wrap.c:165-183 | the cut of a stream into lines of limited length loses nothing, and each line but the last ends in a newline or is full |
| `StreamWrap.ReadLines` | cgi/wrap.c:165-183 | the line reader called again and again hands out exactly that cut under any plan of reads in which none fails: put together, what it stored is the stream |
| `SongList.AppendSong` | linkedList/dlink.c:35-57 | appends one fresh last cell, or changes nothing if the allocation is refused |
| `SongList.ClearSongList` | linkedList/dlink.c:59-68 | frees every cell exactly once and leaves the empty list |
| `SongList.CloneSongList` | linkedList/dlink.c:70-85 | a fresh list of the same songs in order exactly if all allocations are granted, otherwise the empty list and nothing left allocated; the source is untouched |
| `Elimination.InitLink` | 1-100-3.c:32-52 | builds one circular list with the numbers 1 to n |
| `Elimination.InsertLink` | 1-100-3.c:19-25 | links the new node between a node and its successor |
| `Elimination.DelLink` | 1-100-3.c:27-30 | unlinks the successor |
| `Elimination.Eliminate` | 1-100-3.c:59-78 | the loop ends with two nodes and prints what the node-by-node game on a queue drops |
| `Elimination.LoopDropsEveryThird` | 1-100-3.c:66-78 | that game drops every third of the queue that starts at the second node |
| `Elimination.EveryThirdSplits` | 1-100-3.c:66-78 | nobody is lost or counted twice, exactly two stay |
| `Elimination.Play` | 1-100-3.c:54-80 | the whole program for n nodes: printed numbers and survivors together are 1 to n |
| `ShellEscapes.OutputCString` | sqlite/shell.c:391-414 | prints the text with control bytes, backslashes and unprintable bytes escaped, in double quotes |
| `ShellEscapes.EscapedForm` | sqlite/shell.c:391-414 | a printable byte but the backslash is printed as it is, the four with names as two bytes, every other as four, and all that is printed is printable |
| `ShellEscapes.EscapedIsPrintable` | sqlite/shell.c:391-414 | so of any text nothing but printable bytes is printed |
| `ShellEscapes.EscapeMeaning` | sqlite/shell.c:982-1008 | an escape is one to three octal digits, as many as there are, and stands for their number cut to eight bits, or it is one other byte and stands for newline, tab, carriage return or itself |
| `ShellEscapes.ResolveBackslashes` | sqlite/shell.c:982-1008 | replaces the escapes where the text stands, never overwriting what is still unread |
| `ShellEscapes.RoundTrip` | sqlite/shell.c:391-414 | unescaping what the encoder writes gives back every NUL-free text |
| `ShellEscapes.Tokenise` | sqlite/shell.c:1042-1059 | splits a command line in place; every argument stands in the line as a C string with its value |
| `ShellEscapes.InCIsPrinted` | sqlite/shell.c:391-414 | an argument in C quoting is what the encoder prints for its text |
| `ShellEscapes.TokenMeaning` | sqlite/shell.c:1042-1059 | a token goes up to the quote that it begins with, or up to white space, or to the end, and the scan goes on behind the byte that ends it |
| `ShellEscapes.ValueIsC` | sqlite/shell.c:1042-1059 | the value of a token is what unescaping gives, up to its first NUL |
| `ShellEscapes.ArgumentsRoundTrip` | sqlite/shell.c:1042-1059 | texts in C quoting without a double quote, and texts in single quotes without a single one, in any order, come back through the tokeniser, as many as it has room for |
| `ShellEscapes.CommandRoundTrip` | sqlite/shell.c:1042-1059 | so does a command line of a bare word and such arguments, whatever their number |
| `ShellEscapes.TokeniseCommand` | sqlite/shell.c:1042-1059 | and the loop itself leaves the word and the arguments standing in the line as C strings |
| `ShellEscapes.OneArgumentBack` | sqlite/shell.c:1042-1059 | a single argument, in C quoting or in single quotes, comes back exactly if it has no such quote in it |
| `ShellCsv.OutputCsv` | sqlite/shell.c:467-496 | prints one value, quoted exactly if it is empty or a byte needs it |
| `ShellCsv.QuotedIff` | sqlite/shell.c:442-482 | a value is quoted exactly if it is empty, has a blank, a quote or a byte that cannot be seen, has the one-byte separator in it, or begins with the longer one |
| `ShellCsv.NamesBack` | sqlite/shell.c:639-652 | a line of column names before the rows is read back as texts, a missing name as an empty one |
| `ShellCsv.CallbackCsv` | sqlite/shell.c:639-652 | prints a row of names if it is the first call and they are wanted, and the row if there is one |
| `ShellCsv.CsvRoundTrip` | sqlite/shell.c:442-496 | rows of NULLs and texts are recovered by the quoting rules of section 2 of RFC 4180, NULL apart from every text, if the null text is empty or would itself be quoted |
| `ShellCsv.DecodableIff` | sqlite/shell.c:467-496 | no two tables print the same exactly if the one-byte separator is neither the double quote nor the newline and the null text would be quoted as a value |
| `ShellCsv.LongSeparatorConfuses` | sqlite/shell.c:476-477 | with a separator of several bytes that never need quotes, two values print the same as one with the separator in it |
| `ShellImport.CallbackList` | sqlite/shell.c:583-604 | prints in list or semicolon mode the names if it is the first call and they are wanted, and the row if there is one |
| `ShellImport.LocalGetline` | sqlite/shell.c:230-268 | a line of any length without NUL is read whole into a buffer of exactly its size; null exactly at the end |
| `ShellImport.SplitLine` | sqlite/shell.c:1249-1266 | splits a line in place at separators from left to right; the count it returns is the table's exactly if the line has that many columns, which then stand in the line |
| `ShellImport.ImportFile` | sqlite/shell.c:1198-1289 | if every line of the file has as many columns as the table and every row is taken, the table has the columns of all lines in order behind what it had; otherwise it is as it was |
| `ShellImport.LoadedIff` | sqlite/shell.c:1247-1287 | loading line by line comes to the same: it fails as a whole exactly if a line has the wrong number of columns or a row is refused |
| `ShellRoundTrip.ColumnsMeaning` | sqlite/shell.c:1249-1257 | the columns of a line, with a separator between each two, make up the line before its first line end, and no separator begins inside a column |
| `ShellRoundTrip.SemiRow` | sqlite/shell.c:583-604 | a row in semicolon mode is the row in list mode with a semicolon before its newline |
| `ShellRoundTrip.NullsComeBackAsText` | sqlite/shell.c:594-596 | NULL comes back as the null text, all else as it was |
| `ShellRoundTrip.TableRoundTrip` | sqlite/shell.c:583-604 | rows printed in list mode with any separator come back through the line reader and the splitter, added to what the table had, if no separator begins inside a value |
| `ShellRoundTrip.RoundTripIff` | sqlite/shell.c:1249-1273 | with a separator of any length a table comes back exactly if no value has a line end and no separator begins inside one (also none completed by the separator behind it), the database takes the rows, and the splitter can meet the separator where there is something to separate |
| `ShellRoundTrip.PlainIsTight` | sqlite/shell.c:1249-1256 | for a separator of one byte that means that the value has no line end and no separator |
| `ShellSql.IsNumber` | sqlite/shell.c:177-199 | accepts exactly digits with an optional sign before and an optional fraction and exponent behind, and tells those with a fraction or an exponent |
| `ShellSql.OutputQuotedString` | sqlite/shell.c:361-386 | prints the SQL literal of any text, segment by segment |
| `ShellSql.MeasureName` | sqlite/shell.c:689-697 | computes whether a table name needs quotes and how long it then is |
| `ShellSql.BareIff` | sqlite/shell.c:689-697 | a name is written without quotes exactly if it can be read so: a letter or an underscore, and letters, digits and underscores behind it |
| `ShellSql.SetTableName` | sqlite/shell.c:679-710 | fills a buffer of exactly that size with the written name |
| `ShellSql.CallbackInsert` | sqlite/shell.c:653-669 | prints the INSERT statement of a row, and nothing without a row |
| `ShellSql.InsertRoundTrip` | sqlite/shell.c:653-669 | table name and row are recovered from the printed statement exactly if the name is written in quotes or is no reserved word (a table called `order` is written bare and is not); numbers are read as numbers, all other text as text, NULL as NULL |
| `ShellDump.AppendText` | sqlite/shell.c:720-755 | the new buffer has exactly the length computed for it and holds the old text and the new one, quoted if asked |
| `ShellDump.BuildTableInfo` | sqlite/shell.c:828-830 | builds the query for the columns of a table |
| `ShellDump.TableInfoIsRead` | sqlite/shell.c:828-830 | for every table name that query lexes to the intended tokens |
| `ShellDump.BuildSelect` | sqlite/shell.c:838-862 | builds the dump query for any table and columns in a buffer of exactly its length |
| `ShellDump.SelectIsRead` | sqlite/shell.c:838-862 | for every table name and all columns the query lexes to the intended tokens, and its literal for the table, lexed in turn, is the table name |
| `ShellDump.SelectMeans` | sqlite/shell.c:838-862 | the query is a concatenation from the right table exactly if there are columns |
| `ShellDump.SelectGives` | sqlite/shell.c:838-862 | for each row the query gives the INSERT statement with the quoted table name and the quoted values in order |
| `ShellInput.AllWhitespace` | sqlite/shell.c:1621-1640 | scans for white space and comments |
| `ShellInput.BlankMeaning` | sqlite/shell.c:1621-1640 | the scan accepts exactly the texts that can be cut into spaces and comments, the last of which may be an open line comment |
| `ShellInput.IsCommandTerminator` | sqlite/shell.c:1647-1655 | recognises a slash or the word go, in any case, followed by blank text |
| `ShellInput.StoredIff` | sqlite/shell.c:1647-1655 | a line is stored as a semicolon exactly if it is white space, one of `/`, `go`, `Go`, `gO` and `GO`, and blank text; any other as it is |
| `ShellInput.KeepLine` | sqlite/shell.c:1700-1729 | after a line is stored the buffer is the pending lines with newlines between them and its length is exact |
| `ShellInput.ProcessInput` | sqlite/shell.c:1666-1763 | whatever sqlite and the commands answer, the log of the loop is legal, holds the lines that were read in order, counts the errors; the loop stops only at the end of the input, after a command that ends it or after an error it must not survive, and never goes on from the last two; what is left is reported exactly if it is more than blank text; when the file has been read to its end every one of its lines is accounted for, and the statements executed are those that its lines say |
| `ShellInput.ErrorsCount` | sqlite/shell.c:1688-1749 | the errors counted are the moments at which a statement failed or a command neither succeeded nor ended the loop |
| `ShellInput.JoinedIsText` | sqlite/shell.c:1700-1729 | joined by newlines the lines of a text are the text again, short of its last newline |
| `ShellInput.Conserved` | sqlite/shell.c:1677-1756 | in every legal log each line that was read is in exactly one executed statement or still pending, in order, unless it was blank or a command, and each statement is its lines joined by newlines |
| `ShellInput.LogGathers` | sqlite/shell.c:1677-1756 | the statements executed and the lines pending are those that going through the lines one by one with the completeness test gives |
| `ShellInput.LegalIsUnique` | sqlite/shell.c:1677-1756 | the lines and the completeness test alone determine what is skipped, kept and executed, and when |
| `ShellTables.PrintTables` | sqlite/shell.c:1556-1573 | prints the layout of the names |
| `ShellTables.TableIsLines` | sqlite/shell.c:1567-1573 | what is printed, read line by line, is the lines of the layout |
| `ShellTables.NamesStand` | sqlite/shell.c:1567-1571 | on a line the names stand from left to right, each at the beginning of a field as wide as the longest name and filled up with blanks, with two blanks before all but the first |
| `ShellTables.CellIs` | sqlite/shell.c:1567-1571 | field `c` of a line has the name `c` times the number of lines further on, so names run down the columns |
| `ShellTables.ColumnsAreMost` | sqlite/shell.c:1564-1565 | there are as many columns as fit the width, or one |
| `ShellTables.RowsAreFewest` | sqlite/shell.c:1566 | there are no more lines than those columns take |
| `ShellTables.EachNameOnce` | sqlite/shell.c:1567-1573 | the layout has each name exactly once |
| `ShellTables.LineFits` | sqlite/shell.c:1564-1573 | a line is as long as the longest name, or at least two short of the total width |
| `ShellTables.FitsIff` | sqlite/shell.c:1564-1573 | all lines fit the width exactly if the longest name does |
| `PsColumns.Ps.FindOutSpec` | sys/ps.c:310-318 | finds the first column of that name, or the program ends |
| `PsColumns.NamesMeaning` | sys/ps.c:320-340 | the names of an option are the text before the first equals sign cut at its commas |
| `PsColumns.ParseO` | sys/ps.c:320-357 | adds the named columns in order, the last with all the rest as its header, and leaves the option as it was |
| `PsColumns.ParsedNames` | sys/ps.c:320-345 | the columns have the names of the option in order, and are the first of that name in the table, but for the last when a header is given |
| `PsColumns.GivenHeader` | sys/ps.c:343-354 | a header given under 65536 bytes makes the last column exactly as wide, be it wider or narrower than before |
| `PsColumns.ParsedFit` | sys/ps.c:343-354 | all headers of an option fit their widths exactly if its own header has fewer than 65536 bytes |
| `PsColumns.TableIsStandard` | sys/ps.c:276-302 | every known column is as wide as its header, in every configuration |
| `PsColumns.PostProcess` | sys/ps.c:359-375 | reckons the room of a line, asks for a header line if a column has one, and gathers what the columns need read, without contexts where the system has none |
| `PsColumns.NeededMeaning` | sys/ps.c:359-375 | what is gathered is what some column needs, and nothing else |
| `PsColumns.FormatHeader` | sys/ps.c:377-397 | writes the header line inside the buffer and prints as much of it as the terminal is wide; headers that fit stand where their columns begin, with nothing but blanks up to the next |
| `PsColumns.RoomIsEnd` | sys/ps.c:359-397 | the room reckoned for a line ends where one more column would begin |
| `PsColumns.HeaderFitsIff` | sys/ps.c:359-397 | over any options the header line fits the buffer exactly if no header has 65536 bytes or more |
| `PsColumns.PrintHeader` | sys/ps.c:443-470 | options, reckoning and header line together: every header stands where its column begins |

## Where comments and code differ

The models follow the code.

- `sqlite/shell.c:461-466` speaks of C quoting rules for CSV and of numbers outside quotes; the code doubles double quotes, leaves every other byte as it is, and decides by the bytes of a value, not by its type.
- `sqlite/shell.c:476-477` means to find the separator inside a value; for a separator of several bytes the code compares it with the beginning of the value.
- `sys/ps.c:346-350` asks for a width at least that of the header; the code makes the width exactly that of a header given by the user, also where the default is wider, and cuts it to 16 bits.
- `cgi/wrap.c:165-183` returns the number of bytes of a line except when the line is cut: then it returns one more.

## Left out

- The driver code around the protocols: mapping of shared files, semaphore and mutex set-up, `wait`, sleeping, messages, exit codes, and failures of `fork`, `pipe` and `malloc` (allocation failure is modelled in `SongList` only).
- BoundedBuffer.StoppedOutcome: the output is the part of the input before its first NUL, because NUL is the end marker; the producer is not promised to finish when more than the buffer holds follows that NUL.
- PipeRing.EveryEndHeldOnce: descriptors inherited from outside may be pipes of other programs, never those that this program is about to make.
- StreamWrap.LineReader.Readline: on truncation the count returned is one more than the bytes stored, as in the source; the law is about the stored bytes. After a failed call only the stream is known, not the buffer.
- One read-ahead shared by several descriptors: the reader is modelled for one stream.
- ShellEscapes.ResolveBackslashes: requires that no backslash dangles at the end of the text, where the source reads past the terminator; the encoder never writes one.
- ShellEscapes.Tokenise: requires the same of every token outside single quotes, for the same reason.
- ShellCsv.DecodableIff: is for one-byte separators and null texts without a quote, a newline or the separator; `LongSeparatorConfuses` shows what goes wrong with longer separators, and null texts with such bytes may read as several fields.
- ShellImport.LocalGetline: a line with a NUL byte is read to some C string; which part survives depends on the buffer size and is not stated.
- ShellImport.ImportFile: for a file with NUL bytes it only promises whole rows added to the table, for the same reason.
- ShellDump.BuildSelect: the second query for a corrupt table appends an ordering clause and is not modelled, nor are the special cases for sqlite's own and virtual tables.
- ShellInput.ProcessInput: prompts, echo, interrupts, timers and the texts of error messages are not modelled; an interactive session that goes on after errors is one whose `bails` is never true.
- PsColumns.FormatHeader: requires at least one column, which `ps_main` always has, and that the line fits the buffer; `HeaderFitsIff` says exactly when it does, and otherwise the source writes past the end.
- PsColumns.PrintHeader: requires headers under 65536 bytes for the same reason.
- The process lines of `ps` and their printers, scanning of `/proc` and the default option text, which is one more option.
- The other output modes of the shell (line, column, explain, HTML, TCL), its other commands, and sqlite itself: whether a statement is complete, whether a row is accepted and what queries give are arbitrary.
- File copying with threads, the programs with user interfaces, drivers, CGI pages and database clients.
