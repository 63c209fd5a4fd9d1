/**
 * The storage of lists: a block of inline cells followed by overflow cells allocated one
 * by one, all chained through `next`.
 */
module ListCells {
  import opened Terms
  import Slices

  class Cons {
    var node: Term
    var next: Cons?

    constructor ()
      ensures next == null
    {
      node := Long(0);
      next := null;
    }
  }

  class CellList {
    var hasBlob: bool
    var initialized: bool
    var allocSize: nat
    var size: nat
    var tail: Cons?
    /** The inline cells of the block. */
    var head: seq<Cons>
    /** The cells in use, in list order. */
    ghost var spine: seq<Cons>

    ghost predicate Valid()
      reads this, head, spine
    {
      && (!hasBlob ==> head == [] && spine == [] && size == 0 && allocSize == 0)
      && |head| == allocSize && |spine| == size
      && (hasBlob && allocSize == 0 ==> initialized && size == 0)
      && Distinct(head) && Distinct(spine)
      && (forall i | 0 <= i < size && i < allocSize :: spine[i] == head[i])
      && (forall i | allocSize <= i < size :: spine[i] !in head)
      && (size > 0 ==> tail == spine[size - 1])
      && Chained(spine)
    }

    ghost function Contents(): seq<Term>
      reads this, spine
    {
      seq(|spine|, i requires 0 <= i < |spine| reads this, spine => spine[i].node)
    }

    /** The default constructor: no block yet. */
    constructor ()
      ensures Valid() && !hasBlob && Contents() == []
    {
      hasBlob, initialized, allocSize, size, tail, head := false, false, 0, 0, null, [];
      spine := [];
    }

    /** `list(estimated_size)`: zero gives the closed empty list, anything else an open one. */
    constructor Reserve(k: nat)
      ensures Valid() && hasBlob && allocSize == k && fresh(head) && initialized == (k == 0)
      ensures Contents() == []
    {
      hasBlob, initialized, allocSize, size, tail := true, k == 0, k, 0, null;
      head := [];
      spine := [];
      new;
      var cells := NewCells(k);
      head := cells;
    }

    /** `init`: a closed list of the given items, inline from end to end. */
    constructor FromItems(items: seq<Term>)
      ensures Valid() && initialized && fresh(head) && Contents() == items
    {
      var n := if |items| > 0 then |items| else 1;
      hasBlob, initialized, allocSize, size := true, true, n, |items|;
      tail := null;
      head := [];
      spine := [];
      new;
      var cells := NewCells(n);
      head := cells;
      FillFrom(items);
    }

    /** Writes the items into the inline cells and chains them. */
    method FillFrom(items: seq<Term>)
      requires |items| <= |head| && Distinct(head) && allocSize == |head| >= 1 && size == |items| && hasBlob
      modifies this, head
      ensures Valid() && Contents() == items
      ensures hasBlob == old(hasBlob) && initialized == old(initialized) && head == old(head)
    {
      for i := 0 to |items|
        invariant head == old(head) && size == |items| && allocSize == |head| && hasBlob
        invariant initialized == old(initialized)
        invariant forall j | 0 <= j < i :: head[j].node == items[j]
        invariant forall j | 0 <= j < i && j + 1 < |head| :: head[j].next == head[j + 1]
      {
        head[i].node := items[i];
        head[i].next := if i + 1 < |head| then head[i + 1] else null;
      }
      if |items| == 0 {
        tail := null;
      } else {
        tail := head[|items| - 1];
        tail.next := null;
      }
      spine := head[..|items|];
    }

    /** Every cell that belongs to this list, in use or reserved. */
    ghost function Cells(): set<Cons>
      reads this
    {
      (set c | c in head) + (set c | c in spine)
    }

    /** Appends to a list that is not closed yet. */
    method PushBack(a: Term)
      requires Valid() && (hasBlob ==> !initialized)
      modifies this, Cells()
      ensures fresh(Cells() - old(Cells()))
      ensures Valid() && hasBlob && !initialized
      ensures Contents() == old(Contents()) + [a]
      ensures allocSize == (if old(hasBlob) then old(allocSize) else 1)
    {
      if hasBlob {
        PushNext(a);
      } else {
        PushFirst(a);
      }
    }

    method PushFirst(a: Term)
      requires Valid() && !hasBlob
      modifies this
      ensures fresh(Cells())
      ensures Valid() && hasBlob && !initialized
      ensures Contents() == [a] && allocSize == 1
    {
      var p := new Cons();
      hasBlob, initialized := true, false;
      head, allocSize, size := [p], 1, 1;
      tail := p;
      p.node := a;
      p.next := null;
      spine := [p];
    }

    method PushNext(a: Term)
      requires Valid() && hasBlob && !initialized
      modifies this, Cells()
      ensures fresh(Cells() - old(Cells()))
      ensures Valid() && hasBlob && !initialized
      ensures Contents() == old(Contents()) + [a] && allocSize == old(allocSize)
    {
      var p: Cons;
      if size < allocSize {
        p := head[size];
      } else {
        p := new Cons();
      }
      Link(p, a);
    }

    /** Stores `a` in the cell `p` and chains it behind the last cell in use. */
    method Link(p: Cons, a: Term)
      requires Valid() && hasBlob && !initialized && p !in spine
      requires if size < allocSize then p == head[size] else p !in head
      modifies this, p, spine
      ensures Valid() && hasBlob && !initialized && allocSize == old(allocSize)
      ensures head == old(head) && spine == old(spine) + [p]
      ensures Contents() == old(Contents()) + [a]
    {
      p.node := a;
      p.next := null;
      if size > 0 {
        tail.next := p;
      }
      tail := p;
      size := size + 1;
      spine := spine + [p];
    }

    /** Any number of appends. */
    method PushAll(items: seq<Term>)
      requires Valid() && (hasBlob ==> !initialized)
      modifies this, Cells()
      ensures fresh(Cells() - old(Cells()))
      ensures Valid() && (hasBlob ==> !initialized)
      ensures Contents() == old(Contents()) + items
      ensures old(hasBlob) ==> hasBlob && allocSize == old(allocSize)
      decreases |items|
    {
      if items != [] {
        PushBack(items[0]);
        Slices.OneMore(old(Contents()), items);
        PushAll(items[1..]);
      }
    }

    method Close()
      requires Valid()
      modifies this`initialized
      ensures Valid() && (hasBlob ==> initialized) && (!hasBlob ==> initialized == old(initialized))
      ensures Contents() == old(Contents())
    {
      if hasBlob {
        initialized := true;
      }
    }

    method Length() returns (n: nat)
      requires Valid()
      ensures n == |Contents()|
    {
      n := if hasBlob then size else 0;
    }

    /** Following `next` from the first cell meets exactly the contents, in order. */
    method Walk() returns (items: seq<Term>)
      requires Valid()
      ensures items == Contents()
    {
      items := [];
      var p: Cons? := if size == 0 then null else head[0];
      ghost var k := 0;
      while p != null
        invariant 0 <= k <= |spine| && p == (if k < |spine| then spine[k] else null)
        invariant items == Contents()[..k]
        decreases |spine| - k
      {
        items := items + [p.node];
        p := p.next;
        k := k + 1;
      }
    }

    /** `tail(idx)`: a closed copy of everything behind position `idx`, or an exception. */
    method Tail(idx: nat) returns (r: Option<CellList>)
      requires Valid()
      ensures r.None? <==> idx >= |Contents()|
      ensures r.Some? ==> r.value.Valid() && r.value.initialized && fresh(r.value)
      ensures r.Some? ==> r.value.Contents() == Contents()[idx + 1..]
    {
      if idx >= size {
        return None;
      }
      var p: Cons? := head[0];
      for i := 0 to idx + 1
        invariant p == if i < |spine| then spine[i] else null
      {
        p := p.next;
      }
      var items := CopyFrom(p, idx + 1);
      var copy: CellList;
      if |items| == 0 {
        copy := new CellList.Reserve(0);
      } else {
        copy := new CellList.FromItems(items);
      }
      r := Some(copy);
    }

    /** The nodes from the cell at position `from` to the end of the chain. */
    method CopyFrom(start: Cons?, ghost from: nat) returns (items: seq<Term>)
      requires Valid() && from <= |spine| && start == (if from < |spine| then spine[from] else null)
      ensures items == Contents()[from..]
    {
      items := [];
      var p := start;
      ghost var k := from;
      while p != null
        invariant from <= k <= |spine| && p == (if k < |spine| then spine[k] else null)
        invariant items == Contents()[from..k]
        decreases |spine| - k
      {
        items := items + [p.node];
        p := p.next;
        k := k + 1;
      }
    }

    /**
     * `release` of the last reference: the cells whose element it destroys and the cells
     * it frees, in the order in which it does so. Every element is destroyed once, every
     * overflow cell is freed once, and no inline cell is freed on its own.
     */
    method Release() returns (destroyed: seq<Cons>, freed: seq<Cons>)
      requires Valid()
      ensures destroyed == spine && Distinct(destroyed)
      ensures Distinct(freed) && (forall c | c in freed :: c in spine && c !in head)
      ensures forall c | c in spine && c !in head :: c in freed
    {
      destroyed, freed := [], [];
      if !hasBlob || size == 0 {
        return;
      }
      destroyed := ChainFrom(head[0], 0);
      if allocSize > 0 && size > allocSize {
        freed := ChainFrom(head[allocSize - 1].next, allocSize);
      }
      assert forall i | 0 <= i < size && i < allocSize :: spine[i] in head;
    }

    method ChainFrom(start: Cons?, ghost from: nat) returns (cells: seq<Cons>)
      requires Valid() && from <= |spine| && start == (if from < |spine| then spine[from] else null)
      ensures cells == spine[from..]
    {
      cells := [];
      var p := start;
      ghost var k := from;
      while p != null
        invariant from <= k <= |spine| && p == (if k < |spine| then spine[k] else null)
        invariant cells == spine[from..k]
        decreases |spine| - k
      {
        cells := cells + [p];
        p := p.next;
        k := k + 1;
      }
    }
  }

  ghost predicate Distinct(cells: seq<Cons>) {
    forall i, j | 0 <= i < j < |cells| :: cells[i] != cells[j]
  }

  /** Each cell points at the one after it, the last at nothing. */
  ghost predicate Chained(cells: seq<Cons>)
    reads cells
  {
    && (forall i | 0 <= i < |cells| - 1 :: cells[i].next == cells[i + 1])
    && (cells != [] ==> cells[|cells| - 1].next == null)
  }

  method NewCells(k: nat) returns (cells: seq<Cons>)
    ensures |cells| == k && fresh(cells) && Distinct(cells)
  {
    cells := [];
    for i := 0 to k
      invariant |cells| == i && fresh(cells) && Distinct(cells)
    {
      var c := new Cons();
      cells := cells + [c];
    }
  }
}
