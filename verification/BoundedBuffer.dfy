/** The ring buffer shared by one producer process and one consumer process
    (multithreading/hcs.c).  The critical sections are methods of a class; the
    processes, the mutex and the two condition variables are a step system
    whose runs are arbitrary interleavings. */
module BoundedBuffer {
  import opened CText

  // ---------------------------------------------------------------- the ring

  /** The data fields of the shared struct. */
  datatype Ring = Ring(buf: seq<char>, occupied: int, nextin: int, nextout: int)

  /** The slot `i` places from the start of a ring of `n`, going round at most once. */
  function Slot(i: int, n: int): int {
    if i < n then i else i - n
  }

  ghost predicate RingOk(r: Ring) {
    && |r.buf| > 0
    && 0 <= r.occupied <= |r.buf|
    && 0 <= r.nextin < |r.buf|
    && 0 <= r.nextout < |r.buf|
    && r.nextin == Slot(r.nextout + r.occupied, |r.buf|)
  }

  /** The `count` items stored from slot `at` on, across the wrap-around. */
  function From(buf: string, at: int, count: nat): (items: string)
    requires 0 <= at < |buf|
    ensures |items| == count
    decreases count
  {
    if count == 0 then "" else [buf[at]] + From(buf, Slot(at + 1, |buf|), count - 1)
  }

  /** What is stored, oldest first.  With equal indices only `occupied` tells a
      full ring from an empty one. */
  ghost function Items(r: Ring): string
    requires RingOk(r)
  {
    From(r.buf, r.nextout, r.occupied)
  }

  function Put(r: Ring, item: char): Ring
    requires 0 <= r.nextin < |r.buf|
  {
    Ring(r.buf[r.nextin := item], r.occupied + 1, (r.nextin + 1) % |r.buf|, r.nextout)
  }

  function Take(r: Ring): Ring
    requires 0 <= r.nextout < |r.buf|
  {
    r.(occupied := r.occupied - 1, nextout := (r.nextout + 1) % |r.buf|)
  }

  lemma NextSlot(i: int, n: int)
    requires 0 < i <= n
    ensures i % n == Slot(i, n)
  {
  }

  lemma {:induction false} StoreAfterLast(buf: string, at: int, count: nat, item: char)
    requires 0 <= at < |buf| && count < |buf|
    ensures From(buf[Slot(at + count, |buf|) := item], at, count + 1) == From(buf, at, count) + [item]
    decreases count
  {
    if count == 0 {
    } else {
      var next := Slot(at + 1, |buf|);
      var stored := buf[Slot(at + count, |buf|) := item];
      assert Slot(next + (count - 1), |buf|) == Slot(at + count, |buf|) != at;
      calc {
        From(stored, at, count + 1);
        [buf[at]] + From(stored, next, count);
        { StoreAfterLast(buf, next, count - 1, item); }
        [buf[at]] + (From(buf, next, count - 1) + [item]);
        { AppendAssoc([buf[at]], From(buf, next, count - 1), [item]); }
        From(buf, at, count) + [item];
      }
    }
  }

  /** Storing appends at the back. */
  lemma PutAppends(r: Ring, item: char)
    requires RingOk(r) && r.occupied < |r.buf|
    ensures RingOk(Put(r, item))
    ensures Items(Put(r, item)) == Items(r) + [item]
  {
    NextSlot(r.nextin + 1, |r.buf|);
    StoreAfterLast(r.buf, r.nextout, r.occupied, item);
  }

  /** Fetching removes the front. */
  lemma TakeRemovesFront(r: Ring)
    requires RingOk(r) && r.occupied > 0
    ensures RingOk(Take(r))
    ensures Items(r) == [r.buf[r.nextout]] + Items(Take(r))
  {
    NextSlot(r.nextout + 1, |r.buf|);
  }

  /** The shared struct without its lock and condition variables. */
  class Buffer {
    const buf: array<char>
    var occupied: int
    var nextin: int
    var nextout: int

    ghost function AsRing(): Ring
      reads this, buf
    {
      Ring(buf[..], occupied, nextin, nextout)
    }

    ghost predicate Valid()
      reads this, buf
    {
      RingOk(AsRing())
    }

    constructor (bsize: nat)
      requires bsize > 0
      ensures Valid() && fresh(buf) && buf.Length == bsize
      ensures Items(AsRing()) == []
    {
      buf := new char[bsize](_ => NUL);
      occupied, nextin, nextout := 0, 0, 0;
    }

    /** The critical section of `producer`, after its wait loop. */
    method Produce(item: char)
      requires Valid() && occupied < buf.Length
      modifies this, buf
      ensures Valid()
      ensures AsRing() == Put(old(AsRing()), item)
      ensures Items(AsRing()) == old(Items(AsRing())) + [item]
    {
      PutAppends(AsRing(), item);
      buf[nextin] := item;
      nextin := nextin + 1;
      nextin := nextin % buf.Length;
      occupied := occupied + 1;
      assert buf[..] == old(buf[..])[old(nextin) := item];
    }

    /** The critical section of `consumer`, after its wait loop. */
    method Consume() returns (item: char)
      requires Valid() && occupied > 0
      modifies this
      ensures Valid()
      ensures AsRing() == Take(old(AsRing()))
      ensures old(Items(AsRing())) == [item] + Items(AsRing())
    {
      TakeRemovesFront(AsRing());
      item := buf[nextout];
      nextout := nextout + 1;
      nextout := nextout % buf.Length;
      occupied := occupied - 1;
    }
  }

  // ------------------------------------------------------------ the protocol

  datatype Owner = Free | Producer | Consumer

  /** Producer control points; `PSleep` is asleep on `less`, `PReacq` has been
      woken and waits for the mutex, `PCrash` is a failed assert or a store
      outside the buffer. */
  datatype PPc = PGet | PLock | PCheck | PSleep | PReacq | PAssert | PStore | PWrap
               | PCount | PSignal | PUnlock | PDone | PCrash

  datatype CPc = CLock | CCheck | CSleep | CReacq | CAssert | CFetch | CWrap
               | CCount | CSignal | CUnlock | CTest | CDone | CCrash

  /** `made` and `taken` record every item stored and fetched so far. */
  datatype State = State(
    ring: Ring, lock: Owner, pp: PPc, cp: CPc,
    pitem: char, last: bool, citem: char,
    input: string, output: string, made: string, taken: string)

  /** Who moves next; the two `Wake` actions are spurious wake-ups. */
  datatype Actor = Produce | Consume | WakeProducer | WakeConsumer

  function Init(src: string, bsize: nat): State {
    State(Ring(seq(bsize, _ => NUL), 0, 0, 0), Free, PGet, CLock, NUL, false, NUL, src, "", "", "")
  }

  predicate Ready(s: State, who: Actor) {
    match who
    case Produce =>
      (match s.pp
       case PLock | PReacq => s.lock.Free?
       case PSleep | PDone | PCrash => false
       case _ => true)
    case Consume =>
      (match s.cp
       case CLock | CReacq => s.lock.Free?
       case CSleep | CDone | CCrash => false
       case _ => true)
    case WakeProducer => s.pp.PSleep?
    case WakeConsumer => s.cp.CSleep?
  }

  function ProducerStep(s: State): State
    requires Ready(s, Produce) && |s.ring.buf| > 0
  {
    var r, n := s.ring, |s.ring.buf|;
    match s.pp
    case PGet =>
      if s.input == "" then s.(pitem := NUL, last := true, pp := PLock)
      else s.(pitem := s.input[0], input := s.input[1..], last := false, pp := PLock)
    case PLock => s.(lock := Producer, pp := PCheck)
    case PCheck => if r.occupied >= n then s.(lock := Free, pp := PSleep) else s.(pp := PAssert)
    case PReacq => s.(lock := Producer, pp := PCheck)
    case PAssert => if r.occupied < n then s.(pp := PStore) else s.(pp := PCrash)
    case PStore =>
      if 0 <= r.nextin < n then
        s.(ring := r.(buf := r.buf[r.nextin := s.pitem], nextin := r.nextin + 1),
           made := s.made + [s.pitem], pp := PWrap)
      else s.(pp := PCrash)
    case PWrap => s.(ring := r.(nextin := r.nextin % n), pp := PCount)
    case PCount => s.(ring := r.(occupied := r.occupied + 1), pp := PSignal)
    case PSignal => s.(cp := if s.cp.CSleep? then CReacq else s.cp, pp := PUnlock)
    case PUnlock => s.(lock := Free, pp := if s.last then PDone else PGet)
  }

  function ConsumerStep(s: State): State
    requires Ready(s, Consume) && |s.ring.buf| > 0
  {
    var r, n := s.ring, |s.ring.buf|;
    match s.cp
    case CLock => s.(lock := Consumer, cp := CCheck)
    case CCheck => if r.occupied <= 0 then s.(lock := Free, cp := CSleep) else s.(cp := CAssert)
    case CReacq => s.(lock := Consumer, cp := CCheck)
    case CAssert => if r.occupied > 0 then s.(cp := CFetch) else s.(cp := CCrash)
    case CFetch =>
      if 0 <= r.nextout < n then
        s.(citem := r.buf[r.nextout], ring := r.(nextout := r.nextout + 1),
           taken := s.taken + [r.buf[r.nextout]], cp := CWrap)
      else s.(cp := CCrash)
    case CWrap => s.(ring := r.(nextout := r.nextout % n), cp := CCount)
    case CCount => s.(ring := r.(occupied := r.occupied - 1), cp := CSignal)
    case CSignal => s.(pp := if s.pp.PSleep? then PReacq else s.pp, cp := CUnlock)
    case CUnlock => s.(lock := Free, cp := CTest)
    case CTest => if s.citem == NUL then s.(cp := CDone) else s.(output := s.output + [s.citem], cp := CLock)
  }

  function Step(s: State, who: Actor): State
    requires Ready(s, who) && |s.ring.buf| > 0
  {
    match who
    case Produce => ProducerStep(s)
    case Consume => ConsumerStep(s)
    case WakeProducer => s.(pp := PReacq)
    case WakeConsumer => s.(cp := CReacq)
  }

  // ----------------------------------------------------------- the invariant

  /** Between the store and the increment of `occupied`. */
  predicate Storing(pp: PPc) {
    pp.PWrap? || pp.PCount?
  }

  predicate ProducerInside(pp: PPc) {
    pp.PCheck? || pp.PAssert? || pp.PStore? || Storing(pp) || pp.PSignal? || pp.PUnlock?
  }

  /** Between the fetch and the decrement of `occupied`. */
  predicate Fetching(cp: CPc) {
    cp.CWrap? || cp.CCount?
  }

  predicate ConsumerInside(cp: CPc) {
    cp.CCheck? || cp.CAssert? || cp.CFetch? || Fetching(cp) || cp.CSignal? || cp.CUnlock?
  }

  /** The consumer holds an item it has not looked at yet. */
  predicate InHand(cp: CPc) {
    Fetching(cp) || cp.CSignal? || cp.CUnlock? || cp.CTest?
  }

  /** The ring with a half-done store or fetch completed. */
  function Logical(s: State): Ring
    requires |s.ring.buf| > 0
  {
    var r, n := s.ring, |s.ring.buf|;
    Ring(r.buf,
         r.occupied + (if Storing(s.pp) then 1 else 0) - (if Fetching(s.cp) then 1 else 0),
         if s.pp.PWrap? then r.nextin % n else r.nextin,
         if s.cp.CWrap? then r.nextout % n else r.nextout)
  }

  /** The items the producer still has to store, the end marker included. */
  function ToStore(s: State): string {
    var unread := s.input + [NUL];
    match s.pp
    case PGet => unread
    case PDone => ""
    case PWrap | PCount | PSignal | PUnlock => if s.last then "" else unread
    case _ => [s.pitem] + if s.last then "" else unread
  }

  /** Mutual exclusion, and no failed assert. */
  ghost predicate LockInv(s: State) {
    && !s.pp.PCrash? && !s.cp.CCrash?
    && (s.lock.Producer? <==> ProducerInside(s.pp))
    && (s.lock.Consumer? <==> ConsumerInside(s.cp))
  }

  /** The ring, and the tests already made inside the critical section. */
  ghost predicate RingInv(s: State, bsize: nat) {
    && |s.ring.buf| == bsize > 0
    && RingOk(Logical(s))
    && 0 <= s.ring.occupied <= bsize
    && (s.pp.PAssert? || s.pp.PStore? ==> s.ring.occupied < bsize)
    && (s.pp.PSignal? ==> s.ring.occupied > 0)
    && (s.cp.CAssert? || s.cp.CFetch? ==> s.ring.occupied > 0)
    && (s.cp.CSignal? ==> s.ring.occupied < bsize)
  }

  /** No lost wake-up: a sleeper still has its reason, or its signal is about to
      be sent. */
  ghost predicate WakeInv(s: State, bsize: nat) {
    && (s.pp.PSleep? ==> s.ring.occupied == bsize || s.cp.CSignal?)
    && (s.cp.CSleep? ==> s.ring.occupied == 0 || s.pp.PSignal?)
  }

  /** First in, first out, from the input to the ring. */
  ghost predicate FifoInv(s: State, src: string)
    requires |s.ring.buf| > 0 && RingOk(Logical(s))
  {
    && s.made == s.taken + Items(Logical(s))
    && s.made + ToStore(s) == src + [NUL]
  }

  /** What was fetched is what was printed, then the item in hand. */
  ghost predicate OutputInv(s: State) {
    && NUL !in s.output
    && s.taken == s.output + (if InHand(s.cp) then [s.citem] else if s.cp.CDone? then [NUL] else "")
  }

  ghost predicate Inv(s: State, src: string, bsize: nat) {
    LockInv(s) && RingInv(s, bsize) && WakeInv(s, bsize) && FifoInv(s, src) && OutputInv(s)
  }

  lemma InitInv(src: string, bsize: nat)
    requires bsize > 0
    ensures Inv(Init(src, bsize), src, bsize)
  {
  }

  // The parts of the invariant are kept one by one, each for its own few reasons.

  lemma ProducerLogical(s: State, bsize: nat)
    requires LockInv(s) && RingInv(s, bsize) && Ready(s, Produce)
    ensures Logical(ProducerStep(s)) == if s.pp.PStore? then Put(Logical(s), s.pitem) else Logical(s)
  {
  }

  lemma ProducerKeepsLock(s: State, bsize: nat)
    requires LockInv(s) && RingInv(s, bsize) && Ready(s, Produce)
    ensures LockInv(ProducerStep(s))
  {
  }

  lemma ProducerKeepsRing(s: State, bsize: nat)
    requires LockInv(s) && RingInv(s, bsize) && Ready(s, Produce)
    ensures RingInv(ProducerStep(s), bsize)
  {
    ProducerLogical(s, bsize);
    if s.pp.PStore? {
      PutAppends(Logical(s), s.pitem);
    }
  }

  lemma ProducerKeepsWake(s: State, bsize: nat)
    requires LockInv(s) && RingInv(s, bsize) && WakeInv(s, bsize) && Ready(s, Produce)
    ensures WakeInv(ProducerStep(s), bsize)
  {
  }

  lemma Regroup(a: string, c: char, b: string)
    ensures a + ([c] + b) == (a + [c]) + b
  {
  }

  /** What is made and what is still to be stored stay the same together. */
  lemma ProducerMovesOn(s: State)
    requires Ready(s, Produce) && |s.ring.buf| > 0 && !ProducerStep(s).pp.PCrash?
    ensures ProducerStep(s).made + ToStore(ProducerStep(s)) == s.made + ToStore(s)
  {
    if s.pp.PStore? {
      Regroup(s.made, s.pitem, if s.last then "" else s.input + [NUL]);
    } else if s.pp.PGet? && s.input != "" {
      assert s.input + [NUL] == [s.input[0]] + (s.input[1..] + [NUL]);
    }
  }

  lemma ProducerKeepsFifo(s: State, src: string, bsize: nat)
    requires LockInv(s) && RingInv(s, bsize) && FifoInv(s, src) && Ready(s, Produce)
    ensures RingInv(ProducerStep(s), bsize) && FifoInv(ProducerStep(s), src)
  {
    ProducerKeepsLock(s, bsize);
    ProducerKeepsRing(s, bsize);
    ProducerLogical(s, bsize);
    ProducerMovesOn(s);
    if s.pp.PStore? {
      PutAppends(Logical(s), s.pitem);
    }
  }

  lemma ProducerKeepsOutput(s: State)
    requires OutputInv(s) && Ready(s, Produce) && |s.ring.buf| > 0
    ensures OutputInv(ProducerStep(s))
  {
  }

  lemma ProducerKeepsInv(s: State, src: string, bsize: nat)
    requires Inv(s, src, bsize) && Ready(s, Produce)
    ensures Inv(ProducerStep(s), src, bsize)
  {
    ProducerKeepsLock(s, bsize);
    ProducerKeepsWake(s, bsize);
    ProducerKeepsFifo(s, src, bsize);
    ProducerKeepsOutput(s);
  }

  lemma ConsumerLogical(s: State, bsize: nat)
    requires LockInv(s) && RingInv(s, bsize) && Ready(s, Consume)
    ensures Logical(ConsumerStep(s)) == if s.cp.CFetch? then Take(Logical(s)) else Logical(s)
  {
  }

  lemma ConsumerKeepsLock(s: State, bsize: nat)
    requires LockInv(s) && RingInv(s, bsize) && Ready(s, Consume)
    ensures LockInv(ConsumerStep(s))
  {
  }

  lemma ConsumerKeepsRing(s: State, bsize: nat)
    requires LockInv(s) && RingInv(s, bsize) && Ready(s, Consume)
    ensures RingInv(ConsumerStep(s), bsize)
  {
    ConsumerLogical(s, bsize);
    if s.cp.CFetch? {
      TakeRemovesFront(Logical(s));
    }
  }

  lemma ConsumerKeepsWake(s: State, bsize: nat)
    requires LockInv(s) && RingInv(s, bsize) && WakeInv(s, bsize) && Ready(s, Consume)
    ensures WakeInv(ConsumerStep(s), bsize)
  {
  }

  lemma ConsumerMakesNothing(s: State)
    requires Ready(s, Consume) && |s.ring.buf| > 0
    ensures ConsumerStep(s).made == s.made && ToStore(ConsumerStep(s)) == ToStore(s)
  {
  }

  lemma ConsumerKeepsFifo(s: State, src: string, bsize: nat)
    requires LockInv(s) && RingInv(s, bsize) && FifoInv(s, src) && Ready(s, Consume)
    ensures RingInv(ConsumerStep(s), bsize) && FifoInv(ConsumerStep(s), src)
  {
    ConsumerKeepsRing(s, bsize);
    ConsumerLogical(s, bsize);
    ConsumerMakesNothing(s);
    if s.cp.CFetch? {
      TakeRemovesFront(Logical(s));
      Regroup(s.taken, s.ring.buf[s.ring.nextout], Items(Take(Logical(s))));
    }
  }

  lemma ConsumerKeepsOutput(s: State)
    requires OutputInv(s) && Ready(s, Consume) && |s.ring.buf| > 0 && !ConsumerStep(s).cp.CCrash?
    ensures OutputInv(ConsumerStep(s))
  {
  }

  lemma ConsumerKeepsInv(s: State, src: string, bsize: nat)
    requires Inv(s, src, bsize) && Ready(s, Consume)
    ensures Inv(ConsumerStep(s), src, bsize)
  {
    ConsumerKeepsLock(s, bsize);
    ConsumerKeepsWake(s, bsize);
    ConsumerKeepsFifo(s, src, bsize);
    ConsumerKeepsOutput(s);
  }

  lemma StepKeepsInv(s: State, who: Actor, src: string, bsize: nat)
    requires Inv(s, src, bsize) && Ready(s, who)
    ensures Inv(Step(s, who), src, bsize)
  {
    match who
    case Produce => ProducerKeepsInv(s, src, bsize);
    case Consume => ConsumerKeepsInv(s, src, bsize);
    case _ =>
  }

  // -------------------------------------------------------------------- runs

  ghost predicate Legal(s: State, run: seq<Actor>)
    decreases |run|
  {
    run == [] || (|s.ring.buf| > 0 && Ready(s, run[0]) && Legal(Step(s, run[0]), run[1..]))
  }

  ghost function Exec(s: State, run: seq<Actor>): State
    requires Legal(s, run)
    decreases |run|
  {
    if run == [] then s else Exec(Step(s, run[0]), run[1..])
  }

  predicate Spurious(who: Actor) {
    who.WakeProducer? || who.WakeConsumer?
  }

  function SpuriousIn(run: seq<Actor>): nat {
    if run == [] then 0
    else (if Spurious(run[0]) then 1 else 0) + SpuriousIn(run[1..])
  }

  lemma {:induction false} RunKeepsInv(s: State, run: seq<Actor>, src: string, bsize: nat)
    requires Inv(s, src, bsize) && Legal(s, run)
    ensures Inv(Exec(s, run), src, bsize)
    decreases |run|
  {
    if run == [] {
    } else {
      StepKeepsInv(s, run[0], src, bsize);
      RunKeepsInv(Step(s, run[0]), run[1..], src, bsize);
    }
  }

  /** In every reachable state: neither assert has failed, at most one process
      is inside, everything stored equals everything fetched followed by the
      ring, and a sleeper is justified. */
  lemma Safety(src: string, bsize: nat, run: seq<Actor>)
    requires bsize > 0 && Legal(Init(src, bsize), run)
    ensures var s := Exec(Init(src, bsize), run);
      && !s.pp.PCrash? && !s.cp.CCrash?
      && !(ProducerInside(s.pp) && ConsumerInside(s.cp))
      && (s.lock.Free? ==> RingOk(s.ring) && s.made == s.taken + Items(s.ring))
      && (s.pp.PSleep? ==> s.ring.occupied == bsize || s.cp.CSignal?)
      && (s.cp.CSleep? ==> s.ring.occupied == 0 || s.pp.PSignal?)
      && !(s.pp.PSleep? && s.cp.CSleep?)
      && s.output <= s.taken <= s.made <= src + [NUL]
  {
    InitInv(src, bsize);
    RunKeepsInv(Init(src, bsize), run, src, bsize);
    var s := Exec(Init(src, bsize), run);
    assert s.taken <= s.made;
    assert s.made <= src + [NUL];
    if s.lock.Free? { assert Logical(s) == s.ring; }
  }

  // ------------------------------------------------------------- termination

  function ProducerWork(s: State): int {
    var full := s.ring.occupied >= |s.ring.buf|;
    var rank := match s.pp
      case PGet => 13
      case PLock => 12
      case PReacq => if full then 11 else 8
      case PCheck => if full then 10 else 7
      case PSleep => 9
      case PAssert => 6
      case PStore => 5
      case PWrap => 4
      case PCount => 3
      case PSignal => 2
      case PUnlock => 1
      case PDone => 0
      case PCrash => 0;
    var callsAfter := if s.pp.PGet? then |s.input| else if s.last || s.pp.PDone? then 0 else |s.input| + 1;
    14 * callsAfter + rank
  }

  function ConsumerWork(s: State, total: nat): int {
    var empty := s.ring.occupied <= 0;
    var rank := match s.cp
      case CLock => 13
      case CReacq => if empty then 12 else 9
      case CCheck => if empty then 11 else 8
      case CSleep => 10
      case CAssert => 7
      case CFetch => 6
      case CWrap => 5
      case CCount => 4
      case CSignal => 3
      case CUnlock => 2
      case CTest => 1
      case CDone => 0
      case CCrash => 0;
    var callsAfter :=
      if InHand(s.cp) then total - |s.taken|
      else if s.cp.CDone? || s.cp.CCrash? then 0
      else total - 1 - |s.taken|;
    14 * callsAfter + rank
  }

  function Work(s: State, src: string): int {
    ProducerWork(s) + ConsumerWork(s, |src| + 1)
  }

  lemma TakenBound(s: State, src: string, bsize: nat)
    requires Inv(s, src, bsize)
    ensures |s.taken| <= |s.made| <= |src| + 1
    ensures !InHand(s.cp) && !s.cp.CDone? ==> |s.taken| <= |src|
    ensures Work(s, src) >= 0
  {
    assert |s.made + ToStore(s)| == |src| + 1;
    if |s.taken| == |src| + 1 {
      assert s.taken == s.made == src + [NUL];
      assert s.taken[|src|] == NUL;
      assert NUL in s.taken;
    }
  }

  lemma ProducerAdvances(s: State, bsize: nat)
    requires LockInv(s) && RingInv(s, bsize) && Ready(s, Produce)
    ensures ProducerWork(ProducerStep(s)) < ProducerWork(s)
  {
  }

  lemma ProducerWakes(s: State, bsize: nat, total: nat)
    requires LockInv(s) && RingInv(s, bsize) && WakeInv(s, bsize) && Ready(s, Produce)
    ensures ConsumerWork(ProducerStep(s), total) <= ConsumerWork(s, total)
  {
  }

  lemma ConsumerAdvances(s: State, bsize: nat, total: nat)
    requires LockInv(s) && RingInv(s, bsize) && Ready(s, Consume) && |s.taken| <= total
    ensures ConsumerWork(ConsumerStep(s), total) < ConsumerWork(s, total)
  {
  }

  lemma ConsumerWakes(s: State, bsize: nat)
    requires LockInv(s) && RingInv(s, bsize) && WakeInv(s, bsize) && Ready(s, Consume)
    ensures ProducerWork(ConsumerStep(s)) <= ProducerWork(s)
  {
  }

  lemma StepWorks(s: State, who: Actor, src: string, bsize: nat)
    requires Inv(s, src, bsize) && Ready(s, who)
    ensures Work(Step(s, who), src) <= Work(s, src) + (if Spurious(who) then 2 else -1)
  {
    TakenBound(s, src, bsize);
    match who
    case Produce =>
      ProducerAdvances(s, bsize);
      ProducerWakes(s, bsize, |src| + 1);
    case Consume =>
      ConsumerAdvances(s, bsize, |src| + 1);
      ConsumerWakes(s, bsize);
    case _ =>
  }

  lemma {:induction false} RunLength(s: State, run: seq<Actor>, src: string, bsize: nat)
    requires Inv(s, src, bsize) && Legal(s, run)
    ensures |run| <= Work(s, src) + 3 * SpuriousIn(run)
    decreases |run|
  {
    if run == [] {
      TakenBound(s, src, bsize);
    } else {
      StepWorks(s, run[0], src, bsize);
      StepKeepsInv(s, run[0], src, bsize);
      RunLength(Step(s, run[0]), run[1..], src, bsize);
    }
  }

  /** Every interleaving is finite, whatever the scheduler does: only spurious
      wake-ups can prolong a run, by at most three steps each. */
  lemma RunsAreShort(src: string, bsize: nat, run: seq<Actor>)
    requires bsize > 0 && Legal(Init(src, bsize), run)
    ensures |run| <= 28 * |src| + 26 + 3 * SpuriousIn(run)
  {
    InitInv(src, bsize);
    RunLength(Init(src, bsize), run, src, bsize);
  }

  // -------------------------------------------------- deadlock and the output

  function BeforeNul(src: string): string {
    if src == "" || src[0] == NUL then "" else [src[0]] + BeforeNul(src[1..])
  }

  lemma {:induction false} BeforeNulIs(src: string, shown: string)
    requires NUL !in shown && shown + [NUL] <= src + [NUL]
    ensures shown == BeforeNul(src)
    ensures NUL !in src ==> shown == src
  {
    if shown == "" {
      assert (src + [NUL])[0] == NUL;
    } else {
      assert (shown + [NUL])[0] == (src + [NUL])[0];
      assert shown[0] != NUL;
      assert src != "";
      assert shown[1..] + [NUL] == (shown + [NUL])[1..];
      assert src[1..] + [NUL] == (src + [NUL])[1..];
      BeforeNulIs(src[1..], shown[1..]);
    }
  }

  predicate Stopped(s: State) {
    !Ready(s, Produce) && !Ready(s, Consume)
  }

  /** A consumer asleep on an empty ring is still owed an item by the producer. */
  lemma SleepingConsumerIsOwed(s: State, src: string, bsize: nat)
    requires Inv(s, src, bsize) && s.cp.CSleep? && s.ring.occupied == 0 && s.lock.Free?
    ensures ToStore(s) != ""
  {
    assert Items(Logical(s)) == "";
    assert s.made == s.output;
    assert (s.made + ToStore(s))[|src|] == NUL;
    assert ToStore(s) == "" ==> s.made + ToStore(s) == s.output;
  }

  lemma StoppedShape(s: State, src: string, bsize: nat)
    requires Inv(s, src, bsize) && Stopped(s)
    ensures s.cp.CDone? && (s.pp.PDone? || s.pp.PSleep?)
  {
    assert s.lock.Free?;
    assert s.pp.PDone? || s.pp.PSleep?;
    if s.cp.CSleep? {
      SleepingConsumerIsOwed(s, src, bsize);
      assert false;
    }
  }

  /** Every run that can go no further has let the consumer finish, having
      printed exactly the input before its first NUL; the producer has finished
      as well if and only if what follows that NUL fits the buffer. */
  lemma StoppedOutcome(src: string, bsize: nat, run: seq<Actor>)
    requires bsize > 0 && Legal(Init(src, bsize), run) && Stopped(Exec(Init(src, bsize), run))
    ensures var s := Exec(Init(src, bsize), run);
      && s.cp.CDone?
      && s.output == BeforeNul(src)
      && (s.pp.PDone? <==> |src| - |BeforeNul(src)| <= bsize)
      && (!s.pp.PDone? ==> s.pp.PSleep?)
  {
    InitInv(src, bsize);
    RunKeepsInv(Init(src, bsize), run, src, bsize);
    var s := Exec(Init(src, bsize), run);
    StoppedShape(s, src, bsize);
    assert s.output + [NUL] == s.taken <= s.made <= src + [NUL];
    BeforeNulIs(src, s.output);
    assert |s.made| + |ToStore(s)| == |src| + 1;
    assert |s.made| == |s.taken| + s.ring.occupied;
  }

  /** For input without a NUL byte every run that can go no further ends with
      both processes finished and the output equal to the input. */
  lemma OutputEqualsInput(src: string, bsize: nat, run: seq<Actor>)
    requires bsize > 0 && NUL !in src
    requires Legal(Init(src, bsize), run) && Stopped(Exec(Init(src, bsize), run))
    ensures var s := Exec(Init(src, bsize), run);
      s.cp.CDone? && s.pp.PDone? && s.output == src
  {
    StoppedOutcome(src, bsize, run);
    InitInv(src, bsize);
    RunKeepsInv(Init(src, bsize), run, src, bsize);
    var s := Exec(Init(src, bsize), run);
    assert s.output + [NUL] == s.taken <= s.made <= src + [NUL];
    BeforeNulIs(src, s.output);
  }
}
