/** A ring of N+1 processes tied together by pipes (process/pipe_ring.c).  Each
    process has its own descriptor table; parent and child go on concurrently
    after a fork, in any interleaving. */
module PipeRing {

  /** What a descriptor refers to.  Pipes are numbered in order of creation. */
  datatype File = Other(id: int) | ReadEnd(pipe: nat) | WriteEnd(pipe: nat)

  type Fds = map<nat, File>

  datatype Pc = FirstPipe | FirstDupIn | FirstDupOut | FirstCloseRead | FirstCloseWrite
              | Head | Pipe | Fork | DupOut | DupIn | CloseRead | CloseWrite | Test | Out

  /** `rd` and `wr` are the local `fd[0]` and `fd[1]`; `parent` says `pid > 0`. */
  datatype Proc = Proc(pc: Pc, i: nat, fds: Fds, rd: nat, wr: nat, parent: bool)

  datatype State = State(procs: seq<Proc>, pipes: nat)

  /** The lowest descriptor from `from` on that is not in use. */
  function LowestFree(fds: Fds, from: nat): (fd: nat)
    ensures fd !in fds && from <= fd
    ensures forall k: nat :: from <= k < fd ==> k in fds
    decreases set k: nat | k in fds.Keys && k >= from
  {
    if from in fds then
      var used := set k: nat | k in fds.Keys && k >= from;
      assert from in used;
      assert (set k: nat | k in fds.Keys && k >= from + 1) == used - {from};
      LowestFree(fds, from + 1)
    else from
  }

  function Dup2(fds: Fds, old_: nat, new_: nat): Fds {
    if old_ in fds then fds[new_ := fds[old_]] else fds
  }

  function Init(inherited: Fds): State {
    State([Proc(FirstPipe, 0, inherited, 0, 0, false)], 0)
  }

  function MakePipe(p: Proc, fresh_: nat): Proc {
    var rd := LowestFree(p.fds, 0);
    var fds := p.fds[rd := ReadEnd(fresh_)];
    var wr := LowestFree(fds, 0);
    p.(fds := fds[wr := WriteEnd(fresh_)], rd := rd, wr := wr)
  }

  /** One system call, or one loop test, of a process; `fresh_` is the number the
      next pipe will get. */
  function Advance(p: Proc, n: nat, fresh_: nat): Proc {
    match p.pc
    case FirstPipe => MakePipe(p, fresh_).(pc := FirstDupIn)
    case FirstDupIn => p.(fds := Dup2(p.fds, p.rd, 0), pc := FirstDupOut)
    case FirstDupOut => p.(fds := Dup2(p.fds, p.wr, 1), pc := FirstCloseRead)
    case FirstCloseRead => p.(fds := p.fds - {p.rd}, pc := FirstCloseWrite)
    case FirstCloseWrite => p.(fds := p.fds - {p.wr}, pc := Head)
    case Head => p.(pc := if p.i < n then Pipe else Out)
    case Pipe => MakePipe(p, fresh_).(pc := Fork)
    case Fork => p.(parent := true, pc := DupOut)
    case DupOut => p.(fds := Dup2(p.fds, p.wr, 1), pc := CloseRead)
    case DupIn => p.(fds := Dup2(p.fds, p.rd, 0), pc := CloseRead)
    case CloseRead => p.(fds := p.fds - {p.rd}, pc := CloseWrite)
    case CloseWrite => p.(fds := p.fds - {p.wr}, pc := Test)
    case Test => if p.parent then p.(pc := Out) else p.(i := p.i + 1, pc := Head)
    case Out => p
  }

  function Step(s: State, who: nat, n: nat): State
    requires who < |s.procs|
  {
    var p := s.procs[who];
    var moved := s.procs[who := Advance(p, n, s.pipes)];
    State(if p.pc.Fork? then moved + [p.(parent := false, pc := DupIn)] else moved,
          if p.pc.FirstPipe? || p.pc.Pipe? then s.pipes + 1 else s.pipes)
  }

  predicate CanStep(s: State, who: nat) {
    who < |s.procs| && !s.procs[who].pc.Out?
  }

  // ----------------------------------------------------------- the invariant

  /** None of the program's own pipes is open at the start. */
  ghost predicate Inherited(e: Fds) {
    forall k: nat | k in e :: e[k].Other?
  }

  /** Standard input and standard output are open at the start. */
  predicate StandardOpen(e: Fds) {
    0 in e && 1 in e
  }

  /** The table with standard input from pipe `r` and standard output to pipe `w`. */
  function Table(e: Fds, r: nat, w: nat): Fds {
    e[0 := ReadEnd(r)][1 := WriteEnd(w)]
  }

  /** The descriptor table process number `j` must have at its control point. */
  function Expected(p: Proc, j: nat, e: Fds): Fds {
    match p.pc
    case FirstPipe => e
    case FirstDupIn => e[p.rd := ReadEnd(0)][p.wr := WriteEnd(0)]
    case FirstDupOut => e[0 := ReadEnd(0)][p.rd := ReadEnd(0)][p.wr := WriteEnd(0)]
    case FirstCloseRead => Table(e, 0, 0)[p.rd := ReadEnd(0)][p.wr := WriteEnd(0)]
    case FirstCloseWrite => Table(e, 0, 0)[p.wr := WriteEnd(0)]
    case Head | Pipe => Table(e, j, 0)
    case Fork | DupOut => Table(e, j, 0)[p.rd := ReadEnd(j + 1)][p.wr := WriteEnd(j + 1)]
    case DupIn => Table(e, if j == 0 then 0 else j - 1, 0)[p.rd := ReadEnd(j)][p.wr := WriteEnd(j)]
    case CloseRead =>
      if p.parent then Table(e, j, j + 1)[p.rd := ReadEnd(j + 1)][p.wr := WriteEnd(j + 1)]
      else Table(e, j, 0)[p.rd := ReadEnd(j)][p.wr := WriteEnd(j)]
    case CloseWrite =>
      if p.parent then Table(e, j, j + 1)[p.wr := WriteEnd(j + 1)]
      else Table(e, j, 0)[p.wr := WriteEnd(j)]
    case Test | Out => Table(e, j, if p.parent then j + 1 else 0)
  }

  predicate HasPair(pc: Pc) {
    !(pc.FirstPipe? || pc.Head? || pc.Pipe? || pc.Test? || pc.Out?)
  }

  predicate BeforeLoop(pc: Pc) {
    pc.FirstPipe? || pc.FirstDupIn? || pc.FirstDupOut? || pc.FirstCloseRead? || pc.FirstCloseWrite?
  }

  predicate ClosingUp(pc: Pc) {
    pc.CloseRead? || pc.CloseWrite? || pc.Test?
  }

  /** Where process number `j` can be: every process but the newest has become a
      parent, and the loop counter follows from the number. */
  predicate Control(p: Proc, j: nat, last: bool, n: nat) {
    && p.parent == !last
    && (p.parent ==> p.pc.DupOut? || ClosingUp(p.pc) || p.pc.Out?)
    && (!p.parent ==> !p.pc.DupOut?)
    && (BeforeLoop(p.pc) ==> j == 0)
    && (if !p.parent && (p.pc.DupIn? || ClosingUp(p.pc)) then j == p.i + 1 <= n else j == p.i)
    && (p.parent || p.pc.Pipe? || p.pc.Fork? ==> j < n)
    && (p.pc.Out? && !p.parent ==> j >= n)
    && j <= n
  }

  /** All processes are where they can be, and the pipes are counted. */
  ghost predicate ControlInv(s: State, n: nat) {
    && |s.procs| > 0
    && (forall j: nat | j < |s.procs| :: Control(s.procs[j], j, j == |s.procs| - 1, n))
    && var newest := s.procs[|s.procs| - 1].pc;
       s.pipes == if newest.FirstPipe? then 0 else if newest.Fork? then |s.procs| + 1 else |s.procs|
  }

  /** The descriptors of process number `j`. */
  ghost predicate TableInv(p: Proc, j: nat, e: Fds) {
    p.fds == Expected(p, j, e) && (HasPair(p.pc) ==> p.rd != p.wr && p.rd !in e && p.wr !in e)
  }

  ghost predicate Inv(s: State, e: Fds, n: nat) {
    ControlInv(s, n) && forall j: nat | j < |s.procs| :: TableInv(s.procs[j], j, e)
  }

  lemma InitInv(e: Fds, n: nat)
    ensures ControlInv(Init(e), n) && Inv(Init(e), e, n)
  {
  }

  lemma AdvanceKeepsControl(p: Proc, j: nat, last: bool, n: nat, fresh_: nat)
    requires Control(p, j, last, n) && !p.pc.Out? && !p.pc.Fork?
    ensures Control(Advance(p, n, fresh_), j, last, n)
  {
  }

  lemma StepKeepsControl(s: State, who: nat, n: nat)
    requires ControlInv(s, n) && CanStep(s, who)
    ensures ControlInv(Step(s, who, n), n)
  {
    var p, t := s.procs[who], Step(s, who, n);
    assert Control(p, who, who == |s.procs| - 1, n);
    if p.pc.Fork? {
      assert who == |s.procs| - 1;
      assert Control(t.procs[who], who, false, n);
      assert Control(t.procs[who + 1], who + 1, true, n);
    } else {
      AdvanceKeepsControl(p, who, who == |s.procs| - 1, n, s.pipes);
    }
  }

  lemma PipeGetsFreshPair(p: Proc, fresh_: nat, e: Fds)
    requires StandardOpen(e) && e.Keys <= p.fds.Keys
    ensures var q := MakePipe(p, fresh_);
      && q.rd != q.wr && q.rd !in e && q.wr !in e
      && q.fds == p.fds[q.rd := ReadEnd(fresh_)][q.wr := WriteEnd(fresh_)]
  {
  }

  lemma PipeKeepsTable(p: Proc, j: nat, e: Fds, n: nat, fresh_: nat)
    requires StandardOpen(e) && TableInv(p, j, e) && (p.pc.FirstPipe? || p.pc.Pipe?)
    requires fresh_ == if p.pc.FirstPipe? then 0 else j + 1
    ensures TableInv(Advance(p, n, fresh_), j, e)
  {
    PipeGetsFreshPair(p, fresh_, e);
  }

  lemma DupKeepsTable(p: Proc, j: nat, e: Fds, n: nat, fresh_: nat)
    requires StandardOpen(e) && TableInv(p, j, e) && (BeforeLoop(p.pc) ==> j == 0)
    requires p.pc.FirstDupIn? || p.pc.FirstDupOut? || (p.pc.DupOut? && p.parent) || (p.pc.DupIn? && !p.parent && j > 0)
    ensures TableInv(Advance(p, n, fresh_), j, e)
  {
    var q := Advance(p, n, fresh_);
    assert q.fds == Expected(q, j, e);
  }

  lemma CloseKeepsTable(p: Proc, j: nat, e: Fds, n: nat, fresh_: nat)
    requires StandardOpen(e) && TableInv(p, j, e) && (BeforeLoop(p.pc) ==> j == 0)
    requires p.pc.FirstCloseRead? || p.pc.FirstCloseWrite? || p.pc.CloseRead? || p.pc.CloseWrite?
    ensures TableInv(Advance(p, n, fresh_), j, e)
  {
    var q := Advance(p, n, fresh_);
    assert q.fds == Expected(q, j, e);
  }

  lemma AdvanceKeepsTable(p: Proc, j: nat, last: bool, e: Fds, n: nat, fresh_: nat)
    requires StandardOpen(e) && Control(p, j, last, n) && TableInv(p, j, e) && !p.pc.Out? && !p.pc.Fork?
    requires p.pc.FirstPipe? ==> fresh_ == 0
    requires p.pc.Pipe? ==> fresh_ == j + 1
    ensures TableInv(Advance(p, n, fresh_), j, e)
  {
    match p.pc
    case FirstPipe | Pipe => PipeKeepsTable(p, j, e, n, fresh_);
    case FirstDupIn | FirstDupOut | DupOut | DupIn => DupKeepsTable(p, j, e, n, fresh_);
    case FirstCloseRead | FirstCloseWrite | CloseRead | CloseWrite => CloseKeepsTable(p, j, e, n, fresh_);
    case _ =>
  }

  lemma StepKeepsInv(s: State, who: nat, e: Fds, n: nat)
    requires StandardOpen(e) && Inv(s, e, n) && CanStep(s, who)
    ensures Inv(Step(s, who, n), e, n)
  {
    var p, t := s.procs[who], Step(s, who, n);
    StepKeepsControl(s, who, n);
    assert Control(p, who, who == |s.procs| - 1, n) && TableInv(p, who, e);
    if p.pc.Fork? {
      assert TableInv(t.procs[who], who, e) && TableInv(t.procs[who + 1], who + 1, e);
    } else {
      AdvanceKeepsTable(p, who, who == |s.procs| - 1, e, n, s.pipes);
    }
  }

  // -------------------------------------------------------------------- runs

  ghost predicate Legal(s: State, run: seq<nat>, n: nat)
    decreases |run|
  {
    run == [] || (CanStep(s, run[0]) && Legal(Step(s, run[0], n), run[1..], n))
  }

  ghost function Exec(s: State, run: seq<nat>, n: nat): State
    requires Legal(s, run, n)
    decreases |run|
  {
    if run == [] then s else Exec(Step(s, run[0], n), run[1..], n)
  }

  lemma {:induction false} RunKeepsControl(s: State, run: seq<nat>, n: nat)
    requires ControlInv(s, n) && Legal(s, run, n)
    ensures ControlInv(Exec(s, run, n), n)
    decreases |run|
  {
    if run == [] {
    } else {
      StepKeepsControl(s, run[0], n);
      RunKeepsControl(Step(s, run[0], n), run[1..], n);
    }
  }

  lemma {:induction false} RunKeepsInv(s: State, run: seq<nat>, e: Fds, n: nat)
    requires StandardOpen(e) && Inv(s, e, n) && Legal(s, run, n)
    ensures Inv(Exec(s, run, n), e, n)
    decreases |run|
  {
    if run == [] {
    } else {
      StepKeepsInv(s, run[0], e, n);
      RunKeepsInv(Step(s, run[0], n), run[1..], e, n);
    }
  }

  /** All processes have left the loop. */
  ghost predicate Finished(s: State) {
    forall j: nat | j < |s.procs| :: s.procs[j].pc.Out?
  }

  /** Then there are N+1 of them, wherever the descriptors point. */
  lemma AllCreated(e: Fds, n: nat, run: seq<nat>)
    requires Legal(Init(e), run, n) && Finished(Exec(Init(e), run, n))
    ensures |Exec(Init(e), run, n).procs| == n + 1 == Exec(Init(e), run, n).pipes
  {
    InitInv(e, n);
    RunKeepsControl(Init(e), run, n);
    var s := Exec(Init(e), run, n);
    assert Control(s.procs[|s.procs| - 1], |s.procs| - 1, true, n);
  }

  // ---------------------------------------------------------------- the ring

  /** Standard output of `p` is the pipe that standard input of `q` reads. */
  ghost predicate Feeds(p: Proc, q: Proc) {
    1 in p.fds && 0 in q.fds && exists k: nat :: p.fds[1] == WriteEnd(k) && q.fds[0] == ReadEnd(k)
  }

  function Next(p: nat, n: nat): nat {
    if p == n then 0 else p + 1
  }

  /** One cycle: each process feeds the next one and no other. */
  ghost predicate OneCycle(s: State, n: nat) {
    && |s.procs| == n + 1
    && forall p: nat, q: nat | p <= n && q <= n :: Feeds(s.procs[p], s.procs[q]) <==> q == Next(p, n)
  }

  /** Every end of every pipe is held exactly once, through descriptor 0 or 1 only,
      and all other descriptors are the inherited ones. */
  ghost predicate EndsHeldOnce(s: State, e: Fds, n: nat) {
    && |s.procs| == n + 1 == s.pipes
    && forall p: nat | p <= n :: s.procs[p].fds == Table(e, p, Next(p, n))
  }

  lemma FinishedTables(e: Fds, n: nat, run: seq<nat>)
    requires StandardOpen(e) && Legal(Init(e), run, n) && Finished(Exec(Init(e), run, n))
    ensures EndsHeldOnce(Exec(Init(e), run, n), e, n)
  {
    AllCreated(e, n, run);
    InitInv(e, n);
    RunKeepsInv(Init(e), run, e, n);
    var s := Exec(Init(e), run, n);
    forall p: nat | p <= n
      ensures s.procs[p].fds == Table(e, p, Next(p, n))
    {
      assert Control(s.procs[p], p, p == n, n) && TableInv(s.procs[p], p, e);
    }
  }

  lemma TablesCycle(s: State, e: Fds, n: nat)
    requires EndsHeldOnce(s, e, n)
    ensures OneCycle(s, n)
  {
    forall p: nat, q: nat | p <= n && q <= n
      ensures Feeds(s.procs[p], s.procs[q]) <==> q == Next(p, n)
    {
      assert s.procs[p].fds == Table(e, p, Next(p, n)) && s.procs[q].fds == Table(e, q, Next(q, n));
      assert s.procs[p].fds[1] == WriteEnd(Next(p, n)) && s.procs[q].fds[0] == ReadEnd(q);
    }
  }

  // ------------------------------------------------ a closed standard descriptor

  predicate HoldsRead(pc: Pc) {
    HasPair(pc) && !pc.FirstCloseWrite? && !pc.CloseWrite?
  }

  /** With descriptor `m` closed, 0 or 1 and the first that is, every pipe puts its
      read end there, and it is closed again. */
  ghost predicate MissInv(p: Proc, m: nat) {
    && (m == 1 ==> 0 in p.fds)
    && (HasPair(p.pc) ==> p.wr > m)
    && if HoldsRead(p.pc) then p.rd == m else m !in p.fds
  }

  lemma PipeTakesMissing(p: Proc, m: nat, fresh_: nat)
    requires m <= 1 && m !in p.fds && (m == 1 ==> 0 in p.fds)
    ensures var q := MakePipe(p, fresh_); q.rd == m && q.wr > m && (m == 1 ==> 0 in q.fds)
  {
  }

  lemma AdvanceKeepsMissing(p: Proc, m: nat, n: nat, fresh_: nat)
    requires m <= 1 && MissInv(p, m) && !p.pc.Fork?
    ensures MissInv(Advance(p, n, fresh_), m)
  {
    if p.pc.FirstPipe? || p.pc.Pipe? {
      PipeTakesMissing(p, m, fresh_);
    }
  }

  ghost predicate AllMiss(s: State, m: nat) {
    forall j: nat | j < |s.procs| :: MissInv(s.procs[j], m)
  }

  lemma StepKeepsMissing(s: State, who: nat, m: nat, n: nat)
    requires m <= 1 && AllMiss(s, m) && CanStep(s, who)
    ensures AllMiss(Step(s, who, n), m)
  {
    var p, t := s.procs[who], Step(s, who, n);
    assert MissInv(p, m);
    if p.pc.Fork? {
      assert MissInv(t.procs[who], m) && MissInv(t.procs[|s.procs|], m);
    } else {
      AdvanceKeepsMissing(p, m, n, s.pipes);
    }
    assert forall j: nat | j < |s.procs| && j != who :: t.procs[j] == s.procs[j];
  }

  lemma {:induction false} RunKeepsMissing(s: State, run: seq<nat>, m: nat, n: nat)
    requires m <= 1 && AllMiss(s, m) && Legal(s, run, n)
    ensures AllMiss(Exec(s, run, n), m)
    decreases |run|
  {
    if run == [] {
    } else {
      StepKeepsMissing(s, run[0], m, n);
      RunKeepsMissing(Step(s, run[0], n), run[1..], m, n);
    }
  }

  /** Then no process ends up with standard input, or none with standard output. */
  lemma NoRing(e: Fds, n: nat, run: seq<nat>)
    requires !StandardOpen(e) && Legal(Init(e), run, n) && Finished(Exec(Init(e), run, n))
    ensures var s := Exec(Init(e), run, n); !OneCycle(s, n) && !EndsHeldOnce(s, e, n)
  {
    var m := if 0 !in e then 0 else 1;
    RunKeepsMissing(Init(e), run, m, n);
    AllCreated(e, n, run);
    var s := Exec(Init(e), run, n);
    assert m !in s.procs[0].fds && m !in s.procs[Next(0, n)].fds;
    assert !Feeds(s.procs[0], s.procs[Next(0, n)]);
    assert m in Table(e, 0, Next(0, n));
  }

  /** Whatever the interleaving, the finished processes form one cycle of N+1, in
      which every pipe end is held exactly once, if and only if standard input and
      output were open at the start. */
  lemma RingIff(e: Fds, n: nat, run: seq<nat>)
    requires Legal(Init(e), run, n) && Finished(Exec(Init(e), run, n))
    ensures OneCycle(Exec(Init(e), run, n), n) <==> StandardOpen(e)
    ensures EndsHeldOnce(Exec(Init(e), run, n), e, n) <==> StandardOpen(e)
  {
    if StandardOpen(e) {
      FinishedTables(e, n, run);
      TablesCycle(Exec(Init(e), run, n), e, n);
    } else {
      NoRing(e, n, run);
    }
  }

  /** What that means for single descriptors, when no pipe is inherited. */
  lemma EveryEndHeldOnce(e: Fds, n: nat, run: seq<nat>)
    requires Inherited(e) && StandardOpen(e) && Legal(Init(e), run, n) && Finished(Exec(Init(e), run, n))
    ensures var s := Exec(Init(e), run, n);
      && s.pipes == n + 1 == |s.procs|
      && forall p: nat | p <= n ::
           && 0 in s.procs[p].fds && s.procs[p].fds[0] == ReadEnd(p)
           && 1 in s.procs[p].fds && s.procs[p].fds[1] == WriteEnd(Next(p, n))
           && forall fd: nat | fd in s.procs[p].fds && fd > 1 :: fd in e && s.procs[p].fds[fd] == e[fd] && e[fd].Other?
  {
    FinishedTables(e, n, run);
    var s := Exec(Init(e), run, n);
    forall p: nat | p <= n
      ensures s.procs[p].fds == Table(e, p, Next(p, n))
    {
    }
  }

  // ------------------------------------------------------------- termination

  /** Steps a process and the processes it will create still have to make. */
  function Rest(p: Proc, n: nat): int {
    var below := if p.parent then 0 else 11 * (n - p.i - 1) + 1;
    match p.pc
    case FirstPipe => 11 * n + 6
    case FirstDupIn => 11 * n + 5
    case FirstDupOut => 11 * n + 4
    case FirstCloseRead => 11 * n + 3
    case FirstCloseWrite => 11 * n + 2
    case Head => 11 * (n - p.i) + 1
    case Pipe => 11 * (n - p.i)
    case Fork => 11 * (n - p.i) - 1
    case DupOut | DupIn => 4 + below
    case CloseRead => 3 + below
    case CloseWrite => 2 + below
    case Test => 1 + below
    case Out => 0
  }

  function Total(procs: seq<Proc>, n: nat): int {
    if procs == [] then 0 else Rest(procs[0], n) + Total(procs[1..], n)
  }

  lemma {:induction false} TotalUpdate(procs: seq<Proc>, j: nat, p: Proc, n: nat)
    requires j < |procs|
    ensures Total(procs[j := p], n) == Total(procs, n) - Rest(procs[j], n) + Rest(p, n)
  {
    if j == 0 {
    } else {
      assert procs[j := p][1..] == procs[1..][j - 1 := p];
      TotalUpdate(procs[1..], j - 1, p, n);
    }
  }

  lemma {:induction false} TotalAppend(procs: seq<Proc>, p: Proc, n: nat)
    ensures Total(procs + [p], n) == Total(procs, n) + Rest(p, n)
  {
    if procs == [] {
    } else {
      assert (procs + [p])[1..] == procs[1..] + [p];
      TotalAppend(procs[1..], p, n);
    }
  }

  /** A step costs its process one; a fork splits what is left between parent and child. */
  lemma AdvanceTakesOne(p: Proc, j: nat, last: bool, n: nat, fresh_: nat)
    requires Control(p, j, last, n) && !p.pc.Out?
    ensures var child := if p.pc.Fork? then Rest(p.(parent := false, pc := DupIn), n) else 0;
      Rest(Advance(p, n, fresh_), n) + child == Rest(p, n) - 1
  {
  }

  lemma StepTakesOne(s: State, who: nat, n: nat)
    requires ControlInv(s, n) && CanStep(s, who)
    ensures Total(Step(s, who, n).procs, n) == Total(s.procs, n) - 1
  {
    var p := s.procs[who];
    AdvanceTakesOne(p, who, who == |s.procs| - 1, n, s.pipes);
    var q := Advance(p, n, s.pipes);
    TotalUpdate(s.procs, who, q, n);
    TotalAppend(s.procs[who := q], p.(parent := false, pc := DupIn), n);
  }

  lemma {:induction false} RunTakesTotal(s: State, run: seq<nat>, n: nat)
    requires ControlInv(s, n) && Legal(s, run, n)
    ensures Total(Exec(s, run, n).procs, n) == Total(s.procs, n) - |run|
    decreases |run|
  {
    if run == [] {
    } else {
      StepTakesOne(s, run[0], n);
      StepKeepsControl(s, run[0], n);
      RunTakesTotal(Step(s, run[0], n), run[1..], n);
    }
  }

  ghost predicate Counted(p: Proc, n: nat) {
    Rest(p, n) >= 0 && (Rest(p, n) == 0 <==> p.pc.Out?)
  }

  lemma {:induction false} TotalAtEnd(procs: seq<Proc>, n: nat)
    requires forall j: nat | j < |procs| :: Counted(procs[j], n)
    ensures Total(procs, n) >= 0
    ensures Total(procs, n) == 0 <==> forall j: nat | j < |procs| :: procs[j].pc.Out?
  {
    if procs == [] {
    } else {
      assert Counted(procs[0], n);
      TotalAtEnd(procs[1..], n);
      assert forall j: nat | 0 < j < |procs| :: procs[j] == procs[1..][j - 1];
      assert forall j: nat | j < |procs| - 1 :: procs[1..][j] == procs[j + 1];
    }
  }

  /** Every run has at most 11N + 6 steps, whatever is open at the start, and it has
      all of them exactly when every process has left the loop; before that some
      process can go on. */
  lemma RunsEnd(e: Fds, n: nat, run: seq<nat>)
    requires Legal(Init(e), run, n)
    ensures |run| <= 11 * n + 6
    ensures |run| == 11 * n + 6 <==> Finished(Exec(Init(e), run, n))
    ensures |run| < 11 * n + 6 ==> exists who :: CanStep(Exec(Init(e), run, n), who)
  {
    InitInv(e, n);
    RunKeepsControl(Init(e), run, n);
    RunTakesTotal(Init(e), run, n);
    var s := Exec(Init(e), run, n);
    assert Init(e).procs[1..] == [];
    assert Total(Init(e).procs, n) == 11 * n + 6;
    forall j: nat | j < |s.procs|
      ensures Counted(s.procs[j], n)
    {
      assert Control(s.procs[j], j, j == |s.procs| - 1, n);
    }
    TotalAtEnd(s.procs, n);
    if |run| < 11 * n + 6 {
      var j: nat :| j < |s.procs| && !s.procs[j].pc.Out?;
      assert CanStep(s, j);
    }
  }
}
