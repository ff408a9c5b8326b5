/** N philosophers around a table of N semaphores (process/philosopher.c).
    Philosopher 0 waits for its left chopstick first, every other one for its
    right chopstick first.  A run is an arbitrary interleaving. */
module Philosophers {

  /** Where a philosopher is: about to wait for the first chopstick, for the
      second, eating, or between the two posts of `put_down`. */
  datatype Pc = Think | HasFirst | Eat | PutLeft

  datatype State = State(chopstick: seq<int>, pc: seq<Pc>)

  function L(p: nat): nat {
    p
  }

  function R(p: nat, n: nat): nat
    requires p < n
  {
    (p + 1) % n
  }

  function First(p: nat, n: nat): nat
    requires p < n
  {
    if p == 0 then L(p) else R(p, n)
  }

  function Second(p: nat, n: nat): nat
    requires p < n
  {
    if p == 0 then R(p, n) else L(p)
  }

  ghost predicate Shaped(s: State, n: nat) {
    n > 0 && |s.chopstick| == n && |s.pc| == n
  }

  function Init(n: nat): State {
    State(seq(n, _ => 1), seq(n, _ => Think))
  }

  /** A `sem_wait` proceeds only on a positive semaphore; a `sem_post` always does. */
  predicate CanStep(s: State, p: nat, n: nat)
    requires Shaped(s, n) && p < n
  {
    match s.pc[p]
    case Think => s.chopstick[First(p, n)] > 0
    case HasFirst => s.chopstick[Second(p, n)] > 0
    case _ => true
  }

  function Moved(s: State, c: nat, delta: int, p: nat, pc: Pc): State
    requires c < |s.chopstick| && p < |s.pc|
  {
    State(s.chopstick[c := s.chopstick[c] + delta], s.pc[p := pc])
  }

  function Step(s: State, p: nat, n: nat): (t: State)
    requires Shaped(s, n) && p < n && CanStep(s, p, n)
    ensures Shaped(t, n)
  {
    match s.pc[p]
    case Think => Moved(s, First(p, n), -1, p, HasFirst)
    case HasFirst => Moved(s, Second(p, n), -1, p, Eat)
    case Eat => Moved(s, R(p, n), 1, p, PutLeft)
    case PutLeft => Moved(s, L(p), 1, p, Think)
  }

  // ----------------------------------------------------------- the invariant

  predicate Holds(s: State, p: nat, c: nat, n: nat)
    requires Shaped(s, n) && p < n
  {
    match s.pc[p]
    case Think => false
    case HasFirst => c == First(p, n)
    case Eat => c == L(p) || c == R(p, n)
    case PutLeft => c == L(p)
  }

  /** The philosopher whose right chopstick is `c`. */
  function LeftNeighbour(c: nat, n: nat): nat
    requires c < n
  {
    if c == 0 then n - 1 else c - 1
  }

  function Holders(s: State, c: nat, n: nat): nat
    requires Shaped(s, n) && c < n
  {
    (if Holds(s, c, c, n) then 1 else 0) + (if Holds(s, LeftNeighbour(c, n), c, n) then 1 else 0)
  }

  /** Every semaphore is one minus the number of its holders, and never negative. */
  ghost predicate Inv(s: State, n: nat) {
    && n >= 2
    && Shaped(s, n)
    && forall c: nat | c < n :: s.chopstick[c] == 1 - Holders(s, c, n) && s.chopstick[c] >= 0
  }

  lemma RightOf(p: nat, n: nat)
    requires p < n && n >= 2
    ensures R(p, n) == (if p + 1 == n then 0 else p + 1) != p
    ensures LeftNeighbour(R(p, n), n) == p
  {
  }

  /** Only the two neighbours can hold a chopstick. */
  lemma HoldersAreNeighbours(s: State, p: nat, c: nat, n: nat)
    requires Shaped(s, n) && n >= 2 && p < n && c < n && Holds(s, p, c, n)
    ensures p == c || p == LeftNeighbour(c, n)
  {
    RightOf(p, n);
  }

  lemma InitInv(n: nat)
    requires n >= 2
    ensures Inv(Init(n), n)
  {
  }

  /** Taking or putting back one chopstick changes the holders of that one only. */
  lemma StepChangesOneHolding(s: State, p: nat, n: nat, c: nat)
    requires Inv(s, n) && p < n && c < n && CanStep(s, p, n)
    ensures var t := Step(s, p, n);
      t.chopstick[c] == s.chopstick[c] + Holders(s, c, n) - Holders(t, c, n)
  {
    var t := Step(s, p, n);
    RightOf(p, n);
    RightOf(LeftNeighbour(c, n), n);
    assert forall q: nat | q < n && q != p :: Holds(t, q, c, n) == Holds(s, q, c, n);
  }

  lemma StepKeepsInv(s: State, p: nat, n: nat)
    requires Inv(s, n) && p < n && CanStep(s, p, n)
    ensures Inv(Step(s, p, n), n)
  {
    forall c: nat | c < n {
      StepChangesOneHolding(s, p, n, c);
    }
  }

  // -------------------------------------------------------------------- runs

  ghost predicate Legal(s: State, run: seq<nat>, n: nat)
    requires Shaped(s, n)
    decreases |run|
  {
    run == [] || (run[0] < n && CanStep(s, run[0], n) && Legal(Step(s, run[0], n), run[1..], n))
  }

  ghost function Exec(s: State, run: seq<nat>, n: nat): (t: State)
    requires Shaped(s, n) && Legal(s, run, n)
    ensures Shaped(t, n)
    decreases |run|
  {
    if run == [] then s else Exec(Step(s, run[0], n), run[1..], n)
  }

  lemma {:induction false} RunKeepsInv(s: State, run: seq<nat>, n: nat)
    requires Inv(s, n) && Legal(s, run, n)
    ensures Inv(Exec(s, run, n), n)
    decreases |run|
  {
    if run == [] {
    } else {
      StepKeepsInv(s, run[0], n);
      RunKeepsInv(Step(s, run[0], n), run[1..], n);
    }
  }

  /** Two neighbours never eat together. */
  lemma NeighboursExclude(s: State, p: nat, n: nat)
    requires Inv(s, n) && p < n
    ensures !(s.pc[p].Eat? && s.pc[R(p, n)].Eat?)
  {
    RightOf(p, n);
    var c := R(p, n);
    assert s.chopstick[c] == 1 - Holders(s, c, n);
  }

  // -------------------------------------------------------- deadlock freedom

  /** Chopsticks in the order in which everybody takes them: 0, n-1, ..., 1. */
  function Rank(c: nat, n: nat): int {
    if c == 0 then 0 else n - c
  }

  lemma SecondRanksHigher(p: nat, n: nat)
    requires p < n && n >= 2
    ensures 0 <= Rank(First(p, n), n) < Rank(Second(p, n), n) < n
  {
    RightOf(p, n);
  }

  /** A philosopher that holds a chopstick leads, up the ranks, to one that can step. */
  lemma {:induction false} SomeHolderCanStep(s: State, p: nat, n: nat) returns (q: nat)
    requires Inv(s, n) && p < n && !s.pc[p].Think?
    ensures q < n && !s.pc[q].Think? && CanStep(s, q, n)
    decreases n - Rank(First(p, n), n)
  {
    SecondRanksHigher(p, n);
    if CanStep(s, p, n) {
      q := p;
    } else {
      var c := Second(p, n);
      assert s.chopstick[c] == 1 - Holders(s, c, n);
      var o := if Holds(s, c, c, n) then c else LeftNeighbour(c, n);
      assert Holds(s, o, c, n);
      if s.pc[o].HasFirst? {
        SecondRanksHigher(o, n);
        q := SomeHolderCanStep(s, o, n);
      } else {
        q := o;
      }
    }
  }

  /** No reachable state is deadlocked, for any number of philosophers from two on. */
  lemma NeverDeadlocked(n: nat, run: seq<nat>)
    requires n >= 2 && Legal(Init(n), run, n)
    ensures exists q: nat :: q < n && CanStep(Exec(Init(n), run, n), q, n)
  {
    InitInv(n);
    RunKeepsInv(Init(n), run, n);
    var s := Exec(Init(n), run, n);
    if exists p: nat :: p < n && !s.pc[p].Think? {
      var p: nat :| p < n && !s.pc[p].Think?;
      var q := SomeHolderCanStep(s, p, n);
    } else {
      assert s.chopstick[0] == 1 - Holders(s, 0, n);
      assert CanStep(s, 0, n);
    }
  }

  // ------------------------------------------- progress between two pick-ups

  /** Does this step complete a `pick_up`? */
  predicate Completes(s: State, p: nat, n: nat)
    requires Shaped(s, n) && p < n
  {
    s.pc[p].HasFirst?
  }

  ghost predicate NoneCompletes(s: State, run: seq<nat>, n: nat)
    requires Shaped(s, n) && Legal(s, run, n)
    decreases |run|
  {
    run == [] || (!Completes(s, run[0], n) && NoneCompletes(Step(s, run[0], n), run[1..], n))
  }

  /** Semaphore steps philosopher `p` can make before it needs a second chopstick. */
  function Left(pc: Pc): nat {
    match pc
    case HasFirst => 0
    case Think => 1
    case PutLeft => 2
    case Eat => 3
  }

  function Sum(pc: seq<Pc>, weight: Pc -> nat): nat {
    if pc == [] then 0 else weight(pc[0]) + Sum(pc[1..], weight)
  }

  lemma {:induction false} SumUpdate(pc: seq<Pc>, i: nat, x: Pc, weight: Pc -> nat)
    requires i < |pc|
    ensures Sum(pc[i := x], weight) == Sum(pc, weight) - weight(pc[i]) + weight(x)
  {
    if i == 0 {
    } else {
      assert pc[i := x][1..] == pc[1..][i - 1 := x];
      SumUpdate(pc[1..], i - 1, x, weight);
    }
  }

  lemma {:induction false} SumBound(pc: seq<Pc>, weight: Pc -> nat, most: nat)
    requires forall x :: weight(x) <= most
    ensures Sum(pc, weight) <= most * |pc|
  {
    if pc == [] {
    } else {
      SumBound(pc[1..], weight, most);
    }
  }

  lemma {:induction false} QuietRunLength(s: State, run: seq<nat>, n: nat)
    requires Shaped(s, n) && Legal(s, run, n) && NoneCompletes(s, run, n)
    ensures |run| <= Sum(s.pc, Left)
    decreases |run|
  {
    if run == [] {
    } else {
      var t := Step(s, run[0], n);
      SumUpdate(s.pc, run[0], t.pc[run[0]], Left);
      QuietRunLength(t, run[1..], n);
    }
  }

  /** From any state at all, 3n semaphore steps cannot pass without some
      philosopher completing its `pick_up`. */
  lemma {:induction false} QuietRunsAreShort(s: State, run: seq<nat>, n: nat)
    requires Shaped(s, n) && Legal(s, run, n) && NoneCompletes(s, run, n)
    ensures |run| <= 3 * n
  {
    QuietRunLength(s, run, n);
    SumBound(s.pc, Left, 3);
  }

  // -------------------------------------------------- everybody can still eat

  /** Steps until philosopher `p` is back to thinking, if nobody is in its way. */
  function Busy(pc: Pc): nat {
    match pc
    case Think => 0
    case PutLeft => 1
    case Eat => 2
    case HasFirst => 3
  }

  lemma {:induction false} ExecConcat(s: State, a: seq<nat>, b: seq<nat>, n: nat)
    requires Shaped(s, n) && Legal(s, a, n) && Legal(Exec(s, a, n), b, n)
    ensures Legal(s, a + b, n) && Exec(s, a + b, n) == Exec(Exec(s, a, n), b, n)
    decreases |a|
  {
    if a == [] {
      assert a + b == b;
    } else {
      assert (a + b)[1..] == a[1..] + b;
      ExecConcat(Step(s, a[0], n), a[1..], b, n);
    }
  }

  /** Everybody who holds anything can be let through, without anybody new
      picking up a chopstick. */
  lemma {:induction false} AllPutDown(s: State, n: nat) returns (run: seq<nat>)
    requires Inv(s, n)
    ensures Legal(s, run, n) && Inv(Exec(s, run, n), n)
    ensures forall p: nat | p < n :: Exec(s, run, n).pc[p].Think?
    decreases Sum(s.pc, Busy)
  {
    if p: nat :| p < n && !s.pc[p].Think? {
      var q := SomeHolderCanStep(s, p, n);
      var t := Step(s, q, n);
      StepKeepsInv(s, q, n);
      SumUpdate(s.pc, q, t.pc[q], Busy);
      var rest := AllPutDown(t, n);
      run := [q] + rest;
      assert run[1..] == rest;
    } else {
      run := [];
    }
  }

  lemma TwoSteps(s: State, p: nat, n: nat)
    requires Shaped(s, n) && p < n && CanStep(s, p, n) && CanStep(Step(s, p, n), p, n)
    ensures Legal(s, [p, p], n)
    ensures Exec(s, [p, p], n) == Step(Step(s, p, n), p, n)
  {
    var t := Step(s, p, n);
    var u := Step(t, p, n);
    assert [p, p][1..] == [p] && [p][1..] == [];
    assert Legal(u, [], n) && Exec(u, [], n) == u;
    assert Legal(t, [p], n) && Exec(t, [p], n) == u;
  }

  /** When everybody thinks, everybody can take both chopsticks. */
  lemma PicksUpBoth(t: State, p: nat, n: nat)
    requires Inv(t, n) && p < n && forall q: nat | q < n :: t.pc[q].Think?
    ensures CanStep(t, p, n) && CanStep(Step(t, p, n), p, n) && Step(Step(t, p, n), p, n).pc[p].Eat?
  {
    RightOf(p, n);
    assert t.chopstick[First(p, n)] == 1 - Holders(t, First(p, n), n);
    assert t.chopstick[Second(p, n)] == 1 - Holders(t, Second(p, n), n);
  }

  /** From every reachable state any chosen philosopher can still come to eat. */
  lemma AnyoneCanStillEat(n: nat, past: seq<nat>, p: nat)
    requires n >= 2 && p < n && Legal(Init(n), past, n)
    ensures exists future: seq<nat> ::
      Legal(Init(n), past + future, n) && Exec(Init(n), past + future, n).pc[p].Eat?
  {
    InitInv(n);
    RunKeepsInv(Init(n), past, n);
    var s := Exec(Init(n), past, n);
    var clear := AllPutDown(s, n);
    var t := Exec(s, clear, n);
    PicksUpBoth(t, p, n);
    TwoSteps(t, p, n);
    var eat := [p, p];
    ExecConcat(s, clear, eat, n);
    var future := clear + eat;
    ExecConcat(Init(n), past, future, n);
  }

  /** In every reachable state the semaphores count their holders and no two
      neighbours eat. */
  lemma Safety(n: nat, run: seq<nat>)
    requires n >= 2 && Legal(Init(n), run, n)
    ensures var s := Exec(Init(n), run, n);
      && (forall c: nat | c < n :: s.chopstick[c] == 1 - Holders(s, c, n) && 0 <= s.chopstick[c] <= 1)
      && (forall p: nat | p < n :: !(s.pc[p].Eat? && s.pc[R(p, n)].Eat?))
  {
    InitInv(n);
    RunKeepsInv(Init(n), run, n);
    var s := Exec(Init(n), run, n);
    forall p: nat | p < n
      ensures !(s.pc[p].Eat? && s.pc[R(p, n)].Eat?)
    {
      NeighboursExclude(s, p, n);
    }
  }
}
