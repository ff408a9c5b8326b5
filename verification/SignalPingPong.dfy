/** Parent and child counting in turns, each woken by SIGUSR1 from the other
    (sys/sigtellwait1.c).  The shared counter is not locked: its increment is a
    load and a separate store, and signals arrive at any moment. */
module SignalPingPong {

  datatype Who = Parent | Child

  /** `Poll` is the test `i > 0` and, if it holds, of `flag`; the others are the
      statements of the guarded block.  The parent's first increment happens
      before its loop, at `Load` with the round counter still full. */
  datatype Pc = Poll | ClearFlag | CountDown | Load | Store | Kill | Out

  /** One process: control point, signal-handler flag, pending SIGUSR1, rounds
      left, and the register between load and store. */
  datatype Proc = Proc(pc: Pc, flag: bool, pending: bool, i: int, reg: int)

  /** `log` records who stored to the counter, in order. */
  datatype State = State(parent: Proc, child: Proc, count: int, log: seq<Who>)

  datatype Action = Run(who: Who) | Deliver(to: Who)

  function Init(rounds: nat): State {
    State(Proc(Load, false, false, rounds, 0), Proc(Poll, false, false, rounds, 0), 0, [])
  }

  function Other(w: Who): Who {
    if w.Parent? then Child else Parent
  }

  function Get(s: State, w: Who): Proc {
    if w.Parent? then s.parent else s.child
  }

  function With(s: State, w: Who, p: Proc): State {
    if w.Parent? then s.(parent := p) else s.(child := p)
  }

  /** A process that has left its loop takes no further part; a pending signal
      can be delivered to any other. */
  predicate Ready(s: State, a: Action) {
    match a
    case Run(w) => !Get(s, w).pc.Out?
    case Deliver(w) => Get(s, w).pending && !Get(s, w).pc.Out?
  }

  function Step(s: State, a: Action): State
    requires Ready(s, a)
  {
    match a
    case Deliver(w) => With(s, w, Get(s, w).(pending := false, flag := true))
    case Run(w) =>
      var p := Get(s, w);
      match p.pc
      case Poll =>
        if p.i <= 0 then With(s, w, p.(pc := Out))
        else if p.flag then With(s, w, p.(pc := ClearFlag))
        else s
      case ClearFlag => With(s, w, p.(flag := false, pc := CountDown))
      case CountDown => With(s, w, p.(i := p.i - 1, pc := Load))
      case Load => With(s, w, p.(reg := s.count, pc := Store))
      case Store => With(s.(count := p.reg + 1, log := s.log + [w]), w, p.(pc := Kill))
      case Kill =>
        var t := With(s, w, p.(pc := Poll));
        var o := Other(w);
        With(t, o, Get(t, o).(pending := true))
  }

  // ----------------------------------------------------------- the invariant

  predicate HasTurn(p: Proc) {
    !p.pc.Poll? && !p.pc.Out?
  }

  /** The tokens a process holds: its turn, a set flag it has not answered, a
      pending signal. */
  function Tokens(p: Proc): nat {
    (if HasTurn(p) then 1 else 0)
    + (if p.flag && !p.pc.ClearFlag? then 1 else 0)
    + (if p.pending then 1 else 0)
  }

  /** The process that the log says is next. */
  function Next(log: seq<Who>): Who {
    if |log| % 2 == 0 then Parent else Child
  }

  ghost predicate Alternates(log: seq<Who>) {
    forall j: nat | j < |log| :: log[j] == if j % 2 == 0 then Parent else Child
  }

  /** Rounds a process has not counted down yet and still has to store for. */
  function Owed(p: Proc): int {
    p.i + if p.pc.Load? || p.pc.Store? then 1 else 0
  }

  ghost predicate Inv(s: State, rounds: nat) {
       // exactly one token
    && Tokens(s.parent) + Tokens(s.child) == 1
    && (s.parent.pc.ClearFlag? ==> s.parent.flag)
    && (s.child.pc.ClearFlag? ==> s.child.flag)
       // it is with the process whose store is due, or with the one that has
       // stored and not yet passed it on
    && (Tokens(s.parent) == 1 ==> (s.parent.pc.Kill? <==> Next(s.log) != Parent))
    && (Tokens(s.child) == 1 ==> (s.child.pc.Kill? <==> Next(s.log) != Child))
       // the counter
    && Alternates(s.log)
    && s.count == |s.log|
    && (s.parent.pc.Store? ==> s.parent.reg == s.count)
    && (s.child.pc.Store? ==> s.child.reg == s.count)
       // the rounds
    && s.parent.i >= 0 && s.child.i >= 0
    && (s.parent.pc.ClearFlag? || s.parent.pc.CountDown? ==> s.parent.i > 0)
    && (s.child.pc.ClearFlag? || s.child.pc.CountDown? ==> s.child.i > 0)
    && (s.parent.pc.Out? ==> s.parent.i == 0)
    && (s.child.pc.Out? ==> s.child.i == 0)
    && Owed(s.parent) + (|s.log| + 1) / 2 == rounds + 1
    && Owed(s.child) + |s.log| / 2 == rounds
  }

  lemma InitInv(rounds: nat)
    ensures Inv(Init(rounds), rounds)
  {
  }

  lemma DeliverKeepsInv(s: State, w: Who, rounds: nat)
    requires Inv(s, rounds) && Ready(s, Deliver(w))
    ensures Inv(Step(s, Deliver(w)), rounds)
  {
  }

  lemma StoreKeepsInv(s: State, w: Who, rounds: nat)
    requires Inv(s, rounds) && Get(s, w).pc.Store?
    ensures Inv(Step(s, Run(w)), rounds)
  {
  }

  lemma MoveKeepsInv(s: State, w: Who, rounds: nat)
    requires Inv(s, rounds) && Ready(s, Run(w)) && !Get(s, w).pc.Store?
    ensures Inv(Step(s, Run(w)), rounds)
  {
  }

  lemma StepKeepsInv(s: State, a: Action, rounds: nat)
    requires Inv(s, rounds) && Ready(s, a)
    ensures Inv(Step(s, a), rounds)
  {
    match a
    case Deliver(w) => DeliverKeepsInv(s, w, rounds);
    case Run(w) =>
      if Get(s, w).pc.Store? {
        StoreKeepsInv(s, w, rounds);
      } else {
        MoveKeepsInv(s, w, rounds);
      }
  }

  // -------------------------------------------------------------------- runs

  ghost predicate Legal(s: State, run: seq<Action>)
    decreases |run|
  {
    run == [] || (Ready(s, run[0]) && Legal(Step(s, run[0]), run[1..]))
  }

  ghost function Exec(s: State, run: seq<Action>): State
    requires Legal(s, run)
    decreases |run|
  {
    if run == [] then s else Exec(Step(s, run[0]), run[1..])
  }

  lemma {:induction false} RunKeepsInv(s: State, run: seq<Action>, rounds: nat)
    requires Inv(s, rounds) && Legal(s, run)
    ensures Inv(Exec(s, run), rounds)
    decreases |run|
  {
    if run == [] {
    } else {
      StepKeepsInv(s, run[0], rounds);
      RunKeepsInv(Step(s, run[0]), run[1..], rounds);
    }
  }

  /** In every reachable state exactly one token exists, the stores so far
      alternate starting with the parent and none is lost, and the two processes
      are never both inside their increment. */
  lemma Safety(rounds: nat, run: seq<Action>)
    requires Legal(Init(rounds), run)
    ensures var s := Exec(Init(rounds), run);
      && Tokens(s.parent) + Tokens(s.child) == 1
      && Alternates(s.log) && s.count == |s.log|
      && !(HasTurn(s.parent) && HasTurn(s.child))
      && (s.parent.pc.Store? ==> s.parent.reg == s.count)
      && (s.child.pc.Store? ==> s.child.reg == s.count)
  {
    InitInv(rounds);
    RunKeepsInv(Init(rounds), run, rounds);
  }

  /** A signal never arrives on top of an unanswered one, so none is merged or
      overwritten. */
  lemma NoSignalLost(rounds: nat, run: seq<Action>, w: Who)
    requires Legal(Init(rounds), run) && Get(Exec(Init(rounds), run), w).pc.Kill?
    ensures var o := Get(Exec(Init(rounds), run), Other(w)); !o.pending && !o.flag && !HasTurn(o)
  {
    InitInv(rounds);
    RunKeepsInv(Init(rounds), run, rounds);
  }

  // ------------------------------------------------------------- termination

  /** Steps that change the state, left to a process; a poll that finds no flag
      changes nothing. */
  function Rest(p: Proc): int {
    8 * p.i + (match p.pc
               case Poll => 1
               case ClearFlag => 0
               case CountDown => -1
               case Load => 6
               case Store => 5
               case Kill => 4
               case Out => 0)
    + if p.pending then 1 else 0
  }

  function Work(s: State): int {
    Rest(s.parent) + Rest(s.child)
  }

  lemma StepWorks(s: State, a: Action, rounds: nat)
    requires Inv(s, rounds) && Ready(s, a)
    ensures Work(s) >= 0
    ensures Step(s, a) == s || Work(Step(s, a)) < Work(s)
  {
  }

  /** Unless both processes are out of their loops, some step changes the state:
      the token never gets stuck. */
  lemma Progress(s: State, rounds: nat)
    requires Inv(s, rounds) && !(s.parent.pc.Out? && s.child.pc.Out?)
    ensures exists a :: Ready(s, a) && Step(s, a) != s
  {
    var w := if Tokens(s.parent) == 1 then Parent else Child;
    var p := Get(s, w);
    if p.pc.Out? {
      assert Step(s, Run(Other(w))) != s;
    } else if p.pending {
      assert Step(s, Deliver(w)) != s;
    } else {
      assert Step(s, Run(w)) != s;
    }
  }

  /** Steps of a run that change the state. */
  ghost function Moves(s: State, run: seq<Action>): nat
    requires Legal(s, run)
    decreases |run|
  {
    if run == [] then 0
    else (if Step(s, run[0]) == s then 0 else 1) + Moves(Step(s, run[0]), run[1..])
  }

  lemma {:induction false} MovesBounded(s: State, run: seq<Action>, rounds: nat)
    requires Inv(s, rounds) && Legal(s, run)
    ensures Moves(s, run) + Work(Exec(s, run)) <= Work(s)
    decreases |run|
  {
    if run == [] {
    } else {
      StepWorks(s, run[0], rounds);
      StepKeepsInv(s, run[0], rounds);
      MovesBounded(Step(s, run[0]), run[1..], rounds);
    }
  }

  /** Only finitely many steps of a run are anything but idle polls, and a run
      that has not finished can always make another such step. */
  lemma RunsFinish(rounds: nat, run: seq<Action>)
    requires Legal(Init(rounds), run)
    ensures Moves(Init(rounds), run) <= 16 * rounds + 7
    ensures var s := Exec(Init(rounds), run);
      (s.parent.pc.Out? && s.child.pc.Out?) || exists a :: Ready(s, a) && Step(s, a) != s
  {
    InitInv(rounds);
    RunKeepsInv(Init(rounds), run, rounds);
    MovesBounded(Init(rounds), run, rounds);
    var s := Exec(Init(rounds), run);
    assert Work(s) >= 0;
    if !(s.parent.pc.Out? && s.child.pc.Out?) {
      Progress(s, rounds);
    }
  }

  /** With k rounds each, a finished run has counted to 2k + 1. */
  lemma FinalCount(rounds: nat, run: seq<Action>)
    requires Legal(Init(rounds), run)
    requires var s := Exec(Init(rounds), run); s.parent.pc.Out? && s.child.pc.Out?
    ensures var s := Exec(Init(rounds), run);
      s.count == |s.log| == 2 * rounds + 1 && Alternates(s.log)
  {
    InitInv(rounds);
    RunKeepsInv(Init(rounds), run, rounds);
  }
}
