/** A singly linked list with a last-cell pointer, over a heap that may refuse to
    allocate (linkedList/dlink.c). */
module SongList {

  class Cell<Song> {
    var song: Song
    var pNext: Cell?<Song>

    constructor (song: Song)
      ensures this.song == song && pNext == null
    {
      this.song, pNext := song, null;
    }
  }

  /** malloc's view of the cells.  `plan` says which of the next allocations
      succeed; when it is used up all of them do. */
  class Heap<Song> {
    ghost var live: set<Cell<Song>>
    var plan: seq<bool>

    constructor (plan: seq<bool>)
      ensures live == {} && this.plan == plan
    {
      live, this.plan := {}, plan;
    }

    /** A new cell holding `song`, or null. */
    method Calloc(song: Song) returns (cell: Cell?<Song>)
      modifies this
      ensures plan == if old(plan) == [] then [] else old(plan)[1..]
      ensures cell == null <==> old(plan) != [] && !old(plan)[0]
      ensures cell == null ==> live == old(live)
      ensures cell != null ==> fresh(cell) && live == old(live) + {cell}
      ensures cell != null ==> cell.song == song && cell.pNext == null
    {
      var grant := plan == [] || plan[0];
      plan := if plan == [] then [] else plan[1..];
      if !grant {
        return null;
      }
      var made := new Cell(song);
      live := live + {made};
      return made;
    }

    /** Only a live cell may be freed, and nothing is known of it afterwards. */
    method Free(cell: Cell<Song>)
      requires cell in live
      modifies this, cell
      ensures live == old(live) - {cell} && plan == old(plan)
    {
      live := live - {cell};
      cell.pNext := null;
    }
  }

  ghost function CellSet<Song>(cells: seq<Cell<Song>>): set<Cell<Song>> {
    set c | c in cells
  }

  lemma CellSetAppend<Song>(cells: seq<Cell<Song>>, c: Cell<Song>)
    ensures CellSet(cells + [c]) == CellSet(cells) + {c}
  {
  }

  ghost predicate Chain<Song>(cells: seq<Cell<Song>>)
    reads cells
  {
    && (forall i, j | 0 <= i < j < |cells| :: cells[i] != cells[j])
    && (forall i | 0 <= i < |cells| - 1 :: cells[i].pNext == cells[i + 1])
    && (cells != [] ==> cells[|cells| - 1].pNext == null)
  }

  /** `cells` are the cells reachable from `pFirst`, in order, and `songs` what
      they hold. */
  class List<Song> {
    var pFirst: Cell?<Song>
    var pLast: Cell?<Song>
    ghost var cells: seq<Cell<Song>>
    ghost var songs: seq<Song>

    ghost predicate Valid()
      reads this, cells
    {
      && Chain(cells)
      && |songs| == |cells|
      && (forall i | 0 <= i < |cells| :: songs[i] == cells[i].song)
      && pFirst == (if cells == [] then null else cells[0])
      && pLast == (if cells == [] then null else cells[|cells| - 1])
    }

    ghost predicate Owned(heap: Heap<Song>)
      reads this, heap
    {
      CellSet(cells) <= heap.live
    }

    constructor ()
      ensures Valid() && cells == []
    {
      pFirst, pLast, cells, songs := null, null, [], [];
    }
  }

  /** Appends one song, or leaves list and heap contents as they were. */
  method AppendSong<Song>(pList: List<Song>, song: Song, heap: Heap<Song>) returns (ok: bool)
    requires pList.Valid() && pList.Owned(heap)
    modifies pList, heap, if pList.pLast == null then {} else {pList.pLast}
    ensures pList.Valid() && pList.Owned(heap)
    ensures heap.plan == if old(heap.plan) == [] then [] else old(heap.plan)[1..]
    ensures ok <==> old(heap.plan) == [] || old(heap.plan)[0]
    ensures !ok ==> pList.cells == old(pList.cells) && heap.live == old(heap.live)
    ensures ok ==> pList.pLast != null && fresh(pList.pLast)
    ensures ok ==> pList.cells == old(pList.cells) + [pList.pLast] && heap.live == old(heap.live) + {pList.pLast}
    ensures pList.songs == old(pList.songs) + if ok then [song] else []
  {
    var pCell := heap.Calloc(song);
    if pCell == null {
      return false;
    }
    if pList.pFirst == null {
      pList.pFirst, pList.pLast := pCell, pCell;
    } else {
      pList.pLast.pNext := pCell;
      pList.pLast := pCell;
    }
    CellSetAppend(pList.cells, pCell);
    pList.cells := pList.cells + [pCell];
    pList.songs := pList.songs + [song];
    return true;
  }

  /** Distinct cells, still linked from index `k` on. */
  ghost predicate LinkedFrom<Song>(cells: seq<Cell<Song>>, k: nat)
    reads cells
  {
    && k <= |cells|
    && (forall i, j | 0 <= i < j < |cells| :: cells[i] != cells[j])
    && (forall i | k <= i < |cells| - 1 :: cells[i].pNext == cells[i + 1])
    && (k < |cells| ==> cells[|cells| - 1].pNext == null)
  }

  lemma NotFreedYet<Song>(cells: seq<Cell<Song>>, k: nat)
    requires k < |cells| && forall i, j | 0 <= i < j < |cells| :: cells[i] != cells[j]
    ensures cells[k] in CellSet(cells) && cells[k] !in CellSet(cells[..k])
    ensures CellSet(cells[..k + 1]) == CellSet(cells[..k]) + {cells[k]}
  {
    assert cells[..k + 1] == cells[..k] + [cells[k]];
  }

  /** Frees every cell once and leaves the empty list. */
  method ClearSongList<Song>(pList: List<Song>, heap: Heap<Song>)
    requires pList.Valid() && pList.Owned(heap)
    modifies pList, heap, pList.cells
    ensures pList.Valid() && pList.cells == []
    ensures heap.live == old(heap.live) - CellSet(old(pList.cells)) && heap.plan == old(heap.plan)
  {
    var pCell := pList.pFirst;
    ghost var cells, k := pList.cells, 0;
    assert CellSet(cells[..0]) == {};
    while pCell != null
      invariant pList.cells == cells && LinkedFrom(cells, k)
      invariant pCell == if k < |cells| then cells[k] else null
      invariant heap.live == old(heap.live) - CellSet(cells[..k]) && heap.plan == old(heap.plan)
      decreases |cells| - k
    {
      var pNextCell := pCell.pNext;
      NotFreedYet(cells, k);
      heap.Free(pCell);
      pCell := pNextCell;
      k := k + 1;
    }
    assert cells[..k] == cells;
    pList.pFirst, pList.pLast := null, null;
    pList.cells, pList.songs := [], [];
  }

  /** Do the next `k` allocations all succeed? */
  ghost predicate Granted(plan: seq<bool>, k: nat) {
    forall i: nat | i < k && i < |plan| :: plan[i]
  }

  /** What is left of the plan after `k` allocations. */
  ghost function After(plan: seq<bool>, k: nat): seq<bool> {
    if k <= |plan| then plan[k..] else []
  }

  lemma OneAllocation(plan: seq<bool>, k: nat, most: nat)
    requires Granted(plan, k) && k < most
    ensures var rest := After(plan, k);
      && After(plan, k + 1) == (if rest == [] then [] else rest[1..])
      && (if rest == [] || rest[0] then Granted(plan, k + 1) else !Granted(plan, most))
  {
  }

  /** The copying loop of `CloneSongList`: appends copies of the source cells to
      the empty list `newSL` until the end or the first refused allocation;
      `rest` is the source cell it stopped at. */
  method CopySongs<Song>(pList: List<Song>, newSL: List<Song>, heap: Heap<Song>) returns (rest: Cell?<Song>)
    requires pList.Valid() && pList != newSL
    requires newSL.Valid() && newSL.cells == []
    modifies heap, newSL
    ensures newSL.Valid() && newSL.Owned(heap) && (forall i | 0 <= i < |newSL.cells| :: fresh(newSL.cells[i]))
    ensures rest == null <==> Granted(old(heap.plan), |pList.cells|)
    ensures rest == null ==> newSL.songs == pList.songs
    ensures heap.live == old(heap.live) + CellSet(newSL.cells)
  {
    rest := pList.pFirst;
    ghost var k, plan := 0, heap.plan;
    var more := true;
    while rest != null && more
      invariant 0 <= k <= |pList.cells| && |newSL.cells| == k
      invariant rest == if k < |pList.cells| then pList.cells[k] else null
      invariant newSL.Valid() && (forall i | 0 <= i < |newSL.cells| :: fresh(newSL.cells[i]))
      invariant newSL.songs == pList.songs[..k]
      invariant heap.live == old(heap.live) + CellSet(newSL.cells)
      invariant Granted(plan, k)
      invariant more ==> heap.plan == After(plan, k)
      invariant !more ==> k < |pList.cells| && !Granted(plan, |pList.cells|)
      decreases |pList.cells| - k, if more then 1 else 0
    {
      ghost var copied := newSL.cells;
      OneAllocation(plan, k, |pList.cells|);
      more := AppendSong(newSL, rest.song, heap);
      if more {
        CellSetAppend(copied, newSL.pLast);
        rest := rest.pNext;
        k := k + 1;
      }
    }
  }

  /** All or nothing: a fresh list with the same songs in the same order exactly
      when every allocation is granted, otherwise the empty list with nothing
      left allocated.  The source list is not touched. */
  method CloneSongList<Song>(pList: List<Song>, heap: Heap<Song>) returns (newSL: List<Song>)
    requires pList.Valid() && pList.Owned(heap)
    modifies heap
    ensures newSL.Valid() && fresh(newSL) && (forall i | 0 <= i < |newSL.cells| :: fresh(newSL.cells[i]))
    ensures pList.Valid() && pList.Owned(heap)
    ensures Granted(old(heap.plan), |pList.cells|) ==>
              newSL.songs == pList.songs && heap.live == old(heap.live) + CellSet(newSL.cells)
    ensures !Granted(old(heap.plan), |pList.cells|) ==>
              newSL.cells == [] && heap.live == old(heap.live)
  {
    newSL := new List();
    var pCell := CopySongs(pList, newSL, heap);
    if pCell != null {
      ClearSongList(newSL, heap);
    }
  }
}
