/** Elimination on a circular linked list (1-100-3.c), for any number of nodes. */
module Elimination {

  // ------------------------------------------------------------ the pure game

  function Rotated<T>(q: seq<T>): seq<T>
    requires q != []
  {
    q[1..] + [q[0]]
  }

  /** Drop every third of a queue until two are left: who is dropped, in order,
      and who stays. */
  function EveryThird(q: seq<int>): (result: (seq<int>, seq<int>))
    decreases |q|
  {
    if |q| <= 2 then ([], q)
    else
      var rest := EveryThird(q[3..] + q[..2]);
      ([q[2]] + rest.0, rest.1)
  }

  function StepsToDrop(i: nat): nat {
    if i % 3 == 0 then 0 else if i % 3 == 1 then 2 else 1
  }

  /** The same game one node at a time, as the loop plays it: `i` counts, every
      multiple of three deletes the successor of the current node and is counted
      twice. */
  function Simulate(q: seq<int>, i: nat): (result: (seq<int>, seq<int>))
    decreases |q|, StepsToDrop(i)
  {
    if |q| <= 2 then ([], q)
    else if i % 3 == 0 then
      var rest := Simulate(Rotated([q[0]] + q[2..]), i + 2);
      ([q[1]] + rest.0, rest.1)
    else Simulate(Rotated(q), i + 1)
  }

  lemma {:induction false} SimulateIsEveryThird(q: seq<int>, i: nat)
    requires i % 3 == 2
    ensures Simulate(q, i) == EveryThird(q)
    decreases |q|
  {
    if |q| <= 2 {
    } else {
      var r := Rotated(q);
      assert Rotated([r[0]] + r[2..]) == q[3..] + q[..2];
      SimulateIsEveryThird(q[3..] + q[..2], i + 3);
    }
  }

  lemma SwappedPair(q: seq<int>)
    requires |q| == 2
    ensures multiset(q) == multiset(Rotated(q))
  {
    assert q == [q[0]] + [q[1]];
  }

  /** Started at the first node with count one, the loop drops every third of the
      queue that starts at the second node. */
  lemma {:induction false} LoopDropsEveryThird(q: seq<int>)
    requires |q| >= 2
    ensures Simulate(q, 1).0 == EveryThird(Rotated(q)).0
    ensures multiset(Simulate(q, 1).1) == multiset(EveryThird(Rotated(q)).1)
  {
    if |q| == 2 {
      SwappedPair(q);
    } else {
      SimulateIsEveryThird(Rotated(q), 2);
    }
  }

  /** Nobody is lost or counted twice, and exactly two stay. */
  lemma {:induction false} EveryThirdSplits(q: seq<int>)
    ensures multiset(EveryThird(q).0) + multiset(EveryThird(q).1) == multiset(q)
    ensures |q| >= 2 ==> |EveryThird(q).1| == 2 && |EveryThird(q).0| == |q| - 2
    decreases |q|
  {
    if |q| <= 2 {
    } else {
      EveryThirdSplits(q[3..] + q[..2]);
      var rest := EveryThird(q[3..] + q[..2]);
      assert EveryThird(q) == ([q[2]] + rest.0, rest.1);
      calc {
        multiset([q[2]] + rest.0) + multiset(rest.1);
        multiset{q[2]} + multiset(q[3..] + q[..2]);
        multiset(q[..2] + [q[2]] + q[3..]);
        { assert q[..2] + [q[2]] + q[3..] == q; }
        multiset(q);
      }
    }
  }

  function UpTo(n: nat): (q: seq<int>)
    ensures |q| == n
    ensures forall j | 0 <= j < n :: q[j] == j + 1
  {
    seq(n, j => j + 1)
  }

  // ------------------------------------------------------------ the list

  class Node {
    var num: int
    var next: Node?

    constructor (num: int)
      ensures this.num == num && next == null
    {
      this.num, next := num, null;
    }
  }

  function Succ(j: nat, n: nat): nat {
    if j + 1 == n then 0 else j + 1
  }

  /** `ring` lists a circular list once round. */
  ghost predicate Circular(ring: seq<Node>)
    reads ring
  {
    && ring != []
    && (forall i, j | 0 <= i < j < |ring| :: ring[i] != ring[j])
    && (forall j | 0 <= j < |ring| :: ring[j].next == ring[Succ(j, |ring|)])
  }

  ghost predicate Numbered(ring: seq<Node>, nums: seq<int>)
    reads ring
  {
    && |nums| == |ring|
    && forall j | 0 <= j < |ring| :: ring[j].num == nums[j]
  }

  method InsertLink(link: Node, new_: Node)
    requires link != new_
    modifies link, new_
    ensures link.next == new_ && new_.next == old(link.next)
    ensures link.num == old(link.num) && new_.num == old(new_.num)
  {
    var tmp := link.next;
    link.next := new_;
    new_.next := tmp;
  }

  method DelLink(link: Node)
    requires link.next != null && link.next.next != null
    modifies link
    ensures link.next == old(link.next.next) && link.num == old(link.num)
  {
    link.next := link.next.next;
  }

  lemma RotateRing(ring: seq<Node>, nums: seq<int>)
    requires Circular(ring) && Numbered(ring, nums)
    ensures Circular(Rotated(ring)) && Numbered(Rotated(ring), Rotated(nums))
    ensures |ring| > 1 ==> Rotated(ring)[0] == ring[0].next
  {
  }

  /** Prints and unlinks the node after `tmp`, in a ring of at least three. */
  method DropNext(tmp: Node, ghost ring: seq<Node>, ghost nums: seq<int>) returns (num: int)
    requires Circular(ring) && Numbered(ring, nums) && |ring| >= 3 && tmp == ring[0]
    modifies tmp
    ensures num == nums[1]
    ensures Circular([ring[0]] + ring[2..]) && Numbered([ring[0]] + ring[2..], [nums[0]] + nums[2..])
  {
    assert ring[0].next == ring[1] && ring[1].next == ring[2];
    num := tmp.next.num;
    DelLink(tmp);
    var rest := [ring[0]] + ring[2..];
    forall j | 0 < j < |rest|
      ensures rest[j].next == rest[Succ(j, |rest|)]
    {
      assert ring[j + 1].next == ring[Succ(j + 1, |ring|)];
    }
  }

  lemma CountOn(i: nat)
    requires i % 3 != 0
    ensures StepsToDrop(i + 1) < StepsToDrop(i)
  {
  }

  lemma NumberedRing(front: seq<Node>, rear: Node, n: nat)
    requires n >= 2 && |front| == n - 1 && rear.num == n
    requires front[n - 2].next == rear && rear.next == front[0]
    requires forall j | 0 <= j < n - 1 :: front[j].num == j + 1
    requires forall j | 0 <= j < n - 2 :: front[j].next == front[j + 1]
    ensures Circular(front + [rear]) && Numbered(front + [rear], UpTo(n))
  {
    var ring := front + [rear];
    assert forall j | 0 <= j < n :: ring[j].num == j + 1;
  }

  /** Nodes numbered 1 to `n` in a circle. */
  method InitLink(n: nat) returns (head: Node, ghost ring: seq<Node>)
    requires n >= 2
    ensures Circular(ring) && Numbered(ring, UpTo(n)) && head == ring[0] && |ring| == n
    ensures forall j | 0 <= j < n :: fresh(ring[j])
  {
    head := new Node(1);
    var rear := new Node(n);
    head.next := rear;
    rear.next := head;
    var tmp := head;
    ghost var front := [head];
    for i := 2 to n
      invariant |front| == i - 1 && tmp == front[i - 2] && front[0] == head
      invariant fresh(rear) && rear.num == n && rear.next == head && tmp.next == rear
      invariant forall j | 0 <= j < i - 1 :: fresh(front[j]) && front[j].num == j + 1
      invariant forall j | 0 <= j < i - 2 :: front[j].next == front[j + 1]
    {
      var link := new Node(i);
      InsertLink(tmp, link);
      front := front + [link];
      tmp := link;
    }
    ring := front + [rear];
    NumberedRing(front, rear, n);
  }

  /** The walk of n steps before the game leads back to the head. */
  method WalkRound(head: Node, n: nat, ghost ring: seq<Node>) returns (tmp: Node)
    requires Circular(ring) && head == ring[0] && |ring| == n
    ensures tmp == head
  {
    tmp := head;
    for k := 0 to n
      invariant tmp == if k == n then head else ring[k]
    {
      assert ring[k].next == ring[Succ(k, n)];
      tmp := tmp.next;
    }
  }

  /** A turn that deletes: the ring without its second node, one node on. */
  method DropTurn(tmp: Node, ghost ring: seq<Node>, ghost nums: seq<int>) returns (next: Node, num: int)
    requires Circular(ring) && Numbered(ring, nums) && |ring| >= 3 && tmp == ring[0]
    modifies tmp
    ensures num == nums[1]
    ensures var r, m := Rotated([ring[0]] + ring[2..]), Rotated([nums[0]] + nums[2..]);
      Circular(r) && Numbered(r, m) && next == r[0]
  {
    num := DropNext(tmp, ring, nums);
    RotateRing([ring[0]] + ring[2..], [nums[0]] + nums[2..]);
    next := tmp.next;
  }

  /** The rings before and after a turn, what they hold, and what was printed. */
  ghost predicate TurnTaken(ring: seq<Node>, nums: seq<int>, i: nat, ring': seq<Node>, nums': seq<int>, i': nat,
                            dropped: seq<int>)
  {
    && 2 <= |ring'| <= |ring| && (forall j | 0 <= j < |ring'| :: ring'[j] in ring)
    && (|ring'| == |ring| ==> StepsToDrop(i') < StepsToDrop(i))
    && Simulate(nums, i).0 == dropped + Simulate(nums', i').0
    && Simulate(nums, i).1 == Simulate(nums', i').1
  }

  lemma DropTaken(ring: seq<Node>, nums: seq<int>, i: nat)
    requires |ring| == |nums| >= 3 && i % 3 == 0
    ensures TurnTaken(ring, nums, i, Rotated([ring[0]] + ring[2..]), Rotated([nums[0]] + nums[2..]), i + 2, [nums[1]])
  {
  }

  lemma StepTaken(ring: seq<Node>, nums: seq<int>, i: nat)
    requires |ring| == |nums| >= 3 && i % 3 != 0
    ensures TurnTaken(ring, nums, i, Rotated(ring), Rotated(nums), i + 1, [])
  {
    CountOn(i);
    assert [] + Simulate(Rotated(nums), i + 1).0 == Simulate(Rotated(nums), i + 1).0;
  }

  /** One turn of the loop: the next node, the next count, and what was printed. */
  method Turn(tmp: Node, i: nat, ghost ring: seq<Node>, ghost nums: seq<int>)
    returns (next: Node, i': nat, dropped: seq<int>, ghost ring': seq<Node>, ghost nums': seq<int>)
    requires Circular(ring) && Numbered(ring, nums) && |ring| >= 3 && tmp == ring[0]
    modifies tmp
    ensures Circular(ring') && Numbered(ring', nums') && next == ring'[0]
    ensures TurnTaken(ring, nums, i, ring', nums', i', dropped)
  {
    if i % 3 == 0 {
      DropTaken(ring, nums, i);
      var num;
      next, num := DropTurn(tmp, ring, nums);
      dropped, i' := [num], i + 2;
      ring', nums' := Rotated([ring[0]] + ring[2..]), Rotated([nums[0]] + nums[2..]);
    } else {
      StepTaken(ring, nums, i);
      RotateRing(ring, nums);
      dropped, i' := [], i + 1;
      next := tmp.next;
      ring', nums' := Rotated(ring), Rotated(nums);
    }
  }

  /** The loop test tells a ring of two from a larger one. */
  lemma SizeFromLinks(ring: seq<Node>)
    requires Circular(ring) && |ring| >= 2
    ensures ring[0].next != null && ring[0].next.next != null
    ensures ring[0].next.next == ring[0] <==> |ring| == 2
  {
    assert ring[0].next == ring[1];
    assert ring[1].next == ring[Succ(1, |ring|)];
  }

  /** Walks once round, then eliminates; the printed numbers and the two nodes
      left are those of the pure game. */
  method Eliminate(head: Node, n: nat, ghost ring0: seq<Node>, ghost nums0: seq<int>)
    returns (printed: seq<int>, last: Node)
    requires Circular(ring0) && Numbered(ring0, nums0) && head == ring0[0] && |ring0| == n >= 2
    modifies ring0
    ensures printed == Simulate(nums0, 1).0
    ensures last.next != null && last.next != last && last.next.next == last
    ensures [last.num, last.next.num] == Simulate(nums0, 1).1
  {
    var tmp := WalkRound(head, n, ring0);
    var i: nat := 1;
    ghost var ring, nums := ring0, nums0;
    printed := [];
    while tmp != tmp.next.next
      invariant Circular(ring) && Numbered(ring, nums) && tmp == ring[0] && |ring| >= 2
      invariant forall j | 0 <= j < |ring| :: ring[j] in ring0
      invariant Simulate(nums0, 1).0 == printed + Simulate(nums, i).0
      invariant Simulate(nums0, 1).1 == Simulate(nums, i).1
      decreases |ring|, StepsToDrop(i)
    {
      SizeFromLinks(ring);
      var dropped;
      tmp, i, dropped, ring, nums := Turn(tmp, i, ring, nums);
      printed := printed + dropped;
    }
    SizeFromLinks(ring);
    last := tmp;
    assert nums == [nums[0], nums[1]];
  }

  /** The whole program for `n` nodes: every third of 2, 3, ..., n, 1 is printed,
      two nodes stay, and together they are the numbers 1 to `n`. */
  method Play(n: nat) returns (printed: seq<int>, left: seq<int>)
    requires n >= 2
    ensures printed == EveryThird(Rotated(UpTo(n))).0
    ensures |left| == 2 && multiset(printed) + multiset(left) == multiset(UpTo(n))
  {
    var head, ring := InitLink(n);
    var last;
    printed, last := Eliminate(head, n, ring, UpTo(n));
    left := [last.num, last.next.num];
    LoopDropsEveryThird(UpTo(n));
    EveryThirdSplits(Rotated(UpTo(n)));
    assert UpTo(n) == [UpTo(n)[0]] + UpTo(n)[1..];
  }
}
