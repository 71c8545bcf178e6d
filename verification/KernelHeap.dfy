/** kHeap.c in its own form: the arrays kHeapBlocks and kHeapOrder updated in place. Each
    method is tied to the operation on values it performs; KHeapProofs and KHeapGuard say
    what those operations mean. */
module KernelHeap {
  import opened Util
  import opened Buddy
  import opened BuddyRuns
  import opened KHeap
  import opened KHeapProofs
  import opened KHeapGuard

  class HeapAllocator {
    const maxOrder: nat
    const kHeapStart: nat
    const kHeapBlocks: array<Block>
    const kHeapOrder: array<Link>
    ghost var heap: Heap

    function Arrays(): State
      reads kHeapBlocks, kHeapOrder
    {
      State(kHeapBlocks[..], kHeapOrder[..])
    }

    ghost predicate Shaped()
      reads kHeapBlocks, kHeapOrder
    {
      FitsInt(maxOrder) && kHeapStart > 0 && Sane(Arrays(), maxOrder)
    }

    ghost predicate Valid()
      reads this, kHeapBlocks, kHeapOrder
    {
      Shaped() && WellFormed(Arrays(), heap, maxOrder)
    }

    /** kHeapInit, given the page AllocatePageFrames returned. */
    constructor (order: nat, start: nat)
      requires FitsInt(order) && start > 0
      ensures Valid() && maxOrder == order && kHeapStart == start
      ensures Arrays() == Initial(order) && heap == InitialHeap(order)
      ensures fresh(kHeapBlocks) && fresh(kHeapOrder)
    {
      maxOrder, kHeapStart := order, start;
      kHeapBlocks := new Block[Pow2(order)](_ => DEFAULT);
      kHeapOrder := new Link[order + 1](_ => Null);
      new;
      var i := 0;
      while i < Pow2(order)
        invariant 0 <= i <= Pow2(order)
        invariant forall k :: 0 <= k < i ==> kHeapBlocks[k] == DEFAULT
      {
        kHeapBlocks[i] := DEFAULT;
        i := i + 1;
      }
      kHeapBlocks[0] := kHeapBlocks[0].(order := order);
      i := 0;
      while i < order
        invariant 0 <= i <= order
        invariant forall k :: 0 <= k < i ==> kHeapOrder[k] == Null
        invariant kHeapBlocks[0] == DEFAULT.(order := order)
        invariant forall k :: 1 <= k < Pow2(order) ==> kHeapBlocks[k] == DEFAULT
      {
        kHeapOrder[i] := Null;
        i := i + 1;
      }
      kHeapOrder[order] := At(0);
      heap := InitialHeap(order);
      assert Arrays().blocks == Initial(order).blocks && Arrays().heads == Initial(order).heads;
      InitialWellFormed(order);
    }

    method AddTokHeapOrder(order: nat, id: nat)
      requires Shaped() && order <= maxOrder && id < kHeapBlocks.Length
      modifies kHeapBlocks, kHeapOrder
      ensures Shaped() && Arrays() == Add(old(Arrays()), maxOrder, order, id)
    {
      var front := kHeapOrder[order];
      kHeapBlocks[id] := Block(order, false, Null, front);
      kHeapOrder[order] := At(id);
      assert Arrays() == Add(old(Arrays()), maxOrder, order, id);
    }

    method DeleteFromkHeapOrder(order: nat, id: nat)
      requires Shaped() && order <= maxOrder && id < kHeapBlocks.Length
      modifies kHeapBlocks, kHeapOrder
      ensures Shaped() && Arrays() == Delete(old(Arrays()), maxOrder, order, id)
    {
      var prev := kHeapBlocks[id].prev;
      var next := kHeapBlocks[id].next;
      assert Arrays().blocks[id] == kHeapBlocks[id];
      if prev == Null {
        kHeapOrder[order] := next;
      } else {
        kHeapBlocks[prev.id] := kHeapBlocks[prev.id].(next := next);
      }
      if next != Null {
        kHeapBlocks[next.id] := kHeapBlocks[next.id].(prev := prev);
      }
      kHeapBlocks[id] := DEFAULT;
      assert Arrays() == Delete(old(Arrays()), maxOrder, order, id);
    }

    method Kfree(address: nat)
      requires Shaped()
      modifies kHeapBlocks, kHeapOrder, `heap
      ensures Shaped() && Arrays() == KHeap.Kfree(old(Arrays()), maxOrder, kHeapStart, address)
      ensures old(Valid()) && Guarded(old(Arrays()), maxOrder, kHeapStart, address) ==>
                && Valid()
                && (forall id: nat :: id in old(heap.live) && Hits(kHeapStart, address, id) ==>
                      heap.live == old(heap.live) - {id})
                && ((forall id: nat :: id in old(heap.live) ==> !Hits(kHeapStart, address, id)) ==>
                      heap == old(heap) && Arrays() == old(Arrays()))
    {
      ghost var before, was := Arrays(), heap;
      FreeBlock(address);
      if WellFormed(before, was, maxOrder) && Guarded(before, maxOrder, kHeapStart, address) {
        heap := KfreeKeepsWellFormed(before, was, maxOrder, kHeapStart, address);
      }
    }

    /** kfree's work on the arrays. */
    method FreeBlock(address: nat)
      requires Shaped()
      modifies kHeapBlocks, kHeapOrder
      ensures Shaped() && Arrays() == KHeap.Kfree(old(Arrays()), maxOrder, kHeapStart, address)
    {
      ghost var before := Arrays();
      if address < kHeapStart || kHeapStart + BLOCK_SIZE * Pow2(maxOrder) <= address {
        return;
      }
      var id := (address - kHeapStart) / BLOCK_SIZE;
      if !kHeapBlocks[id].isAllocated {
        return;
      }
      var order := kHeapBlocks[id].order;
      assert before.blocks[id] == kHeapBlocks[id];
      AddTokHeapOrder(order, id);
      MergeBuddies(id, order);
    }

    /** The merge loop. */
    method MergeBuddies(id0: nat, order0: nat)
      requires Shaped() && order0 <= maxOrder && id0 < kHeapBlocks.Length
      modifies kHeapBlocks, kHeapOrder
      ensures Shaped() && Arrays() == Merge(old(Arrays()), maxOrder, id0, order0)
    {
      var id: nat, order: nat := id0, order0;
      while order < maxOrder
        invariant order0 <= order <= maxOrder && id < kHeapBlocks.Length && Shaped()
        invariant Merge(Arrays(), maxOrder, id, order) == Merge(old(Arrays()), maxOrder, id0, order0)
      {
        ghost var st := Arrays();
        MergeStep(st, maxOrder, id, order, order + 1);
        AbsorbIs(st, maxOrder, id, order, order + 1);
        var buddyId := Flip(id, order);
        assert st.blocks[buddyId] == kHeapBlocks[buddyId];
        if kHeapBlocks[buddyId].isAllocated {
          return;
        }
        DeleteFromkHeapOrder(order, id);
        DeleteFromkHeapOrder(order, buddyId);
        id := if id < buddyId then id else buddyId;
        AddTokHeapOrder(order + 1, id);
        order := order + 1;
      }
    }

    method Kmalloc(size: nat) returns (address: nat)
      requires Valid() && 1 <= size < 0x1_0000_0000
      modifies kHeapBlocks, kHeapOrder, `heap
      ensures Valid()
      ensures Arrays() == KHeap.Kmalloc(old(Arrays()), maxOrder, kHeapStart, size).0
      ensures address == KHeap.Kmalloc(old(Arrays()), maxOrder, kHeapStart, size).1
      ensures size > BLOCK_SIZE * Pow2(maxOrder) ==> address == 0 && heap == old(heap)
      ensures size <= BLOCK_SIZE * Pow2(maxOrder) ==>
                match Allocate(old(heap), CeilLog2(RequestedBlocks(size)))
                case None => address == 0 && heap == old(heap)
                case Some(got) => heap == got.0 && address == kHeapStart + BLOCK_SIZE * got.1
    {
      if size > BLOCK_SIZE * Pow2(maxOrder) {
        return 0;
      }
      var requestedBlockNumber := if size % BLOCK_SIZE == 0 then size / BLOCK_SIZE else size / BLOCK_SIZE + 1;
      assert requestedBlockNumber == RequestedBlocks(size);
      var requestedOrder := RequestedOrder(requestedBlockNumber);
      OrderFits(size, maxOrder);
      KmallocRefines(Arrays(), heap, maxOrder, kHeapStart, size);
      FirstHeadIsFirstFit(Arrays(), heap, maxOrder, requestedOrder);
      var currentOrder := FindOrder(requestedOrder);
      if currentOrder > maxOrder {
        return 0;
      }
      ghost var granted := KHeap.Kmalloc(Arrays(), maxOrder, kHeapStart, size);
      KmallocGrants(Arrays(), heap, maxOrder, kHeapStart, size, currentOrder, requestedOrder);
      SplitFront(currentOrder, requestedOrder);
      var front := Take(requestedOrder, heap.lists[currentOrder][0]);
      heap := BuddyRuns.Allocated(heap, requestedOrder);
      assert Arrays() == granted.0;
      return kHeapStart + BLOCK_SIZE * front;
    }

    /** Unlist the front of a list and mark it allocated. */
    method Take(order: nat, ghost page: nat) returns (front: nat)
      requires Shaped() && order <= maxOrder && kHeapOrder[order] == At(page) && page < kHeapBlocks.Length
      modifies kHeapBlocks, kHeapOrder
      ensures Shaped() && front == page && Arrays() == Taken(old(Arrays()), maxOrder, order, page)
    {
      front := kHeapOrder[order].id;
      DeleteFromkHeapOrder(order, front);
      kHeapBlocks[front] := kHeapBlocks[front].(order := order, isAllocated := true);
      assert Arrays() == Taken(old(Arrays()), maxOrder, order, page);
    }

    method FindOrder(r: nat) returns (c: nat)
      requires Shaped() && r <= maxOrder
      ensures c == FirstHead(kHeapOrder[..], r)
    {
      c := r;
      while c <= maxOrder && kHeapOrder[c] == Null
        invariant r <= c <= maxOrder + 1
        invariant FirstHead(kHeapOrder[..], r) == FirstHead(kHeapOrder[..], c)
      {
        c := c + 1;
      }
    }

    /** The split loop. */
    method SplitFront(c: nat, r: nat)
      requires Shaped() && r <= c <= maxOrder && CutSafe(Arrays(), maxOrder, c, r)
      modifies kHeapBlocks, kHeapOrder
      ensures Shaped() && Arrays() == Cut(old(Arrays()), maxOrder, c, r)
    {
      var currentOrder: nat := c;
      while currentOrder > r
        invariant r <= currentOrder <= c && Shaped()
        invariant CutSafe(Arrays(), maxOrder, currentOrder, r)
        invariant Cut(Arrays(), maxOrder, currentOrder, r) == Cut(old(Arrays()), maxOrder, c, r)
      {
        var lower: nat := currentOrder - 1;
        ghost var st, page := Arrays(), kHeapOrder[currentOrder].id;
        assert st.heads[currentOrder] == kHeapOrder[currentOrder];
        CutSafeFront(st, maxOrder, currentOrder, lower, r);
        var buddyId := Halve(currentOrder, lower, page);
        CutUnroll(st, maxOrder, page, currentOrder, lower, buddyId, r);
        CutSafeUnroll(st, maxOrder, page, currentOrder, lower, buddyId, r);
        currentOrder := lower;
      }
    }

    /** One round of the split loop. */
    method Halve(currentOrder: nat, lower: nat, ghost page: nat) returns (buddyId: nat)
      requires Shaped() && currentOrder == lower + 1 <= maxOrder && kHeapOrder[currentOrder] == At(page)
      requires page < kHeapBlocks.Length && page + Pow2(lower) < kHeapBlocks.Length
      modifies kHeapBlocks, kHeapOrder
      ensures Shaped() && buddyId == page + Pow2(lower) < kHeapBlocks.Length
      ensures Arrays() == Halved(old(Arrays()), maxOrder, currentOrder, lower, page, buddyId)
    {
      var front := kHeapOrder[currentOrder].id;
      DeleteFromkHeapOrder(currentOrder, front);
      SmallPower(lower, maxOrder);
      var half := Pow(2, lower);
      buddyId := front + half;
      AddTokHeapOrder(lower, buddyId);
      AddTokHeapOrder(lower, front);
    }
  }
}
