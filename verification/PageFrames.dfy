/** physicalMemory.c: the page-frame buddy allocator. `struct Page *` is a Link into
    memoryMap, so `page - memoryMap` is the index itself. */
module PageFrames {
  import opened Util
  import opened Buddy

  /** `flags` is its three bits PAGE_ALLOCATED, PAGE_RESERVED, PAGE_TOP; `order` is `private`. */
  datatype Page = Page(isAllocated: bool, isReserved: bool, isTop: bool, order: nat, prev: Link, next: Link)

  /** The int argument as the `unsigned long long` that log2 and the comparison see. */
  function AsUnsigned(n: int): nat
    requires -0x8000_0000 <= n < 0x8000_0000
  {
    if n < 0 then n + WORD else n
  }

  ghost predicate Descending(l: seq<nat>) {
    forall i, j :: 0 <= i < j < |l| ==> l[i] > l[j]
  }

  ghost predicate Node(pages: seq<Page>, total: nat, o: nat, l: seq<nat>, k: nat)
    requires total <= |pages| && k < |l|
  {
    && l[k] < total
    && pages[l[k]].order == o
    && pages[l[k]].prev == (if k == 0 then Null else At(l[k - 1]))
    && pages[l[k]].next == (if k + 1 == |l| then Null else At(l[k + 1]))
  }

  /** The list l of order o as the head and the links of the pages spell it out. */
  ghost predicate Spells(pages: seq<Page>, total: nat, head: Link, o: nat, l: seq<nat>)
    requires total <= |pages|
  {
    && head == (if l == [] then Null else At(l[0]))
    && NoDuplicates(l)
    && forall k: nat :: k < |l| ==> Node(pages, total, o, l, k)
  }

  /** The entries after prepending `page` to the list of order o whose front is `front`. */
  function Prepended(pages: seq<Page>, o: nat, front: Link, page: nat): seq<Page>
    requires page < |pages| && (front != Null ==> front.id < |pages|)
  {
    var added := pages[page := pages[page].(order := o, prev := Null, next := front)];
    if front == Null then added else added[front.id := added[front.id].(prev := At(page))]
  }

  /** The entries after unlinking `page` from its neighbours. */
  function Unlinked(pages: seq<Page>, page: nat): seq<Page>
    requires page < |pages|
    requires pages[page].prev != Null ==> pages[page].prev.id < |pages|
    requires pages[page].next != Null ==> pages[page].next.id < |pages|
  {
    var (prev, next) := (pages[page].prev, pages[page].next);
    var one := if prev == Null then pages else pages[prev.id := pages[prev.id].(next := next)];
    var two := if next == Null then one else one[next.id := one[next.id].(prev := prev)];
    two[page := two[page].(prev := Null, next := Null)]
  }

  lemma SpellsBounds(pages: seq<Page>, total: nat, head: Link, o: nat, l: seq<nat>)
    requires total <= |pages| && Spells(pages, total, head, o, l)
    ensures forall k: nat :: k < |l| ==> l[k] < total
    ensures forall p :: p in l ==> pages[p].order == o
  {
    forall k: nat | k < |l| ensures l[k] < total && pages[l[k]].order == o {
      assert Node(pages, total, o, l, k);
    }
  }

  lemma SpellsPrepended(pages: seq<Page>, total: nat, head: Link, o: nat, l: seq<nat>, page: nat)
    requires total <= |pages| && Spells(pages, total, head, o, l) && page < total && page !in l
    ensures head != Null ==> head.id < |pages|
    ensures Spells(Prepended(pages, o, head, page), total, At(page), o, [page] + l)
  {
    SpellsBounds(pages, total, head, o, l);
    var after, m := Prepended(pages, o, head, page), [page] + l;
    forall k: nat | k < |m| ensures Node(after, total, o, m, k) {
      if k > 0 {
        assert Node(pages, total, o, l, k - 1);
        assert m[k] == l[k - 1] && m[k - 1] == (if k == 1 then page else l[k - 2]);
        assert k > 1 ==> l[0] != l[k - 1];
        assert l[k - 1] != page;
      } else {
        assert l != [] ==> l[0] in l && l[0] == m[1];
      }
    }
    forall i, j | 0 <= i < j < |m| ensures m[i] != m[j] {
      assert m[j] == l[j - 1] && m[j] in l;
    }
  }

  lemma SpellsUnlinked(pages: seq<Page>, total: nat, head: Link, o: nat, l: seq<nat>, k: nat)
    requires total <= |pages| && Spells(pages, total, head, o, l) && k < |l|
    ensures l[k] < total
    ensures pages[l[k]].prev != Null ==> pages[l[k]].prev.id < total
    ensures pages[l[k]].next != Null ==> pages[l[k]].next.id < total
    ensures var head' := if k == 0 then pages[l[k]].next else head;
            Spells(Unlinked(pages, l[k]), total, head', o, l[..k] + l[k + 1..])
  {
    SpellsBounds(pages, total, head, o, l);
    assert Node(pages, total, o, l, k);
    var after, m := Unlinked(pages, l[k]), l[..k] + l[k + 1..];
    forall i: nat | i < |m| ensures Node(after, total, o, m, i) {
      var j := if i < k then i else i + 1;
      assert Node(pages, total, o, l, j);
      assert m[i] == l[j] && l[j] != l[k];
      assert k > 0 && j != k - 1 ==> l[j] != l[k - 1];
      assert k + 1 < |l| && j != k + 1 ==> l[j] != l[k + 1];
    }
  }

  lemma SpellsFrame(pages: seq<Page>, after: seq<Page>, total: nat, head: Link, o: nat, l: seq<nat>)
    requires total <= |pages| == |after| && Spells(pages, total, head, o, l)
    requires forall p :: 0 <= p < |pages| && p in l ==>
               after[p].order == pages[p].order && after[p].prev == pages[p].prev && after[p].next == pages[p].next
    ensures Spells(after, total, head, o, l)
  {
    SpellsBounds(pages, total, head, o, l);
    forall k: nat | k < |l| ensures Node(after, total, o, l, k) {
      assert Node(pages, total, o, l, k) && l[k] in l;
    }
  }

  /** What a request for n pages, from 1 up, does: g is h with an aligned run of at least n and
      fewer than 2n pages that were all free marked live, and the address is its first page's;
      or g is h, the address 0, and n exceeds the largest block or no such run was free. */
  ghost predicate RightSize(h: Heap, g: Heap, n: nat, usable: set<nat>, max: nat, address: nat) {
    if g == h then
      && address == 0
      && (n > Pow2(max) ||
          forall s: nat, o: nat :: n <= Pow2(o) < 2 * n && Aligned(s, o) ==>
            !WhollyFree(FreeUnits(usable, h.live), s, o))
    else
      exists o: nat, s: nat ::
        && o <= max && n <= Pow2(o) < 2 * n && address == 4096 * s
        && Aligned(s, o) && WhollyFree(FreeUnits(usable, h.live), s, o)
        && s !in h.live && g.live == h.live[s := o]
  }

  /** There is one order for which a block has at least n and fewer than 2n units. */
  lemma OneOrder(n: nat, o: nat)
    requires n >= 1 && n <= Pow2(o) < 2 * n
    ensures o == CeilLog2(n)
  {
    CeilLog2Least(n, o);
    if CeilLog2(n) < o {
      Pow2Monotone(CeilLog2(n), o - 1);
    }
  }

  /** The buddy system's answer to the order asked for is right for the number itself; a
      negative number asks for more than there is. */
  lemma RequestMeans(h: Heap, usable: set<nat>, max: nat, n: int)
    requires Inv(h, usable, max) && FitsInt(max) && -0x8000_0000 <= n < 0x8000_0000 && n != 0
    ensures n < 0 ==> Allocate(h, CeilLog2(AsUnsigned(n))).None?
    ensures n >= 1 ==>
              match Allocate(h, CeilLog2(AsUnsigned(n)))
              case None => RightSize(h, h, n, usable, max, 0)
              case Some(got) => got.0 != h && RightSize(h, got.0, n, usable, max, 4096 * got.1)
  {
    var r := CeilLog2(AsUnsigned(n));
    AllocateCorrect(h, usable, max, r);
    if n < 0 {
      if r <= max {
        Pow2Monotone(r, max);
        assert false;
      }
    } else if Allocate(h, r).None? {
      NothingFits(h, usable, max, n, r);
    } else {
      var (g, s) := Allocate(h, r).value;
      assert s in g.live;
      assert r <= max && n <= Pow2(r) < 2 * n && g.live == h.live[s := r];
    }
  }

  lemma NothingFits(h: Heap, usable: set<nat>, max: nat, n: nat, r: nat)
    requires n >= 1 && r == CeilLog2(n)
    requires r > max || forall s: nat :: Aligned(s, r) ==> !WhollyFree(FreeUnits(usable, h.live), s, r)
    ensures RightSize(h, h, n, usable, max, 0)
  {
    if n <= Pow2(max) {
      CeilLog2Least(n, max);
      forall s: nat, o: nat | n <= Pow2(o) < 2 * n && Aligned(s, o)
        ensures !WhollyFree(FreeUnits(usable, h.live), s, o)
      {
        OneOrder(n, o);
      }
    }
  }

  class PageFrameAllocator {
    const maxOrder: nat
    const total: nat
    /** `total` entries and the word behind them, which the scan for the next free page reads. */
    const memoryMap: array<Page>
    const pageFrameOrder: array<Link>
    ghost var heap: Heap

    ghost predicate Linked()
      reads this, memoryMap, pageFrameOrder
    {
      && memoryMap.Length == total + 1
      && pageFrameOrder.Length == maxOrder + 1 == |heap.lists|
      && forall o :: 0 <= o <= maxOrder ==> Spells(memoryMap[..], total, pageFrameOrder[o], o, heap.lists[o])
    }

    ghost function Usable(): set<nat>
      requires memoryMap.Length == total + 1
      reads memoryMap
    {
      set p: nat | p < total && !memoryMap[p].isReserved
    }

    ghost predicate Valid()
      reads this, memoryMap, pageFrameOrder
    {
      && FitsInt(maxOrder) && total < 0x800_0000_0000_0000
      && Linked()
      && Inv(heap, Usable(), maxOrder)
      && forall s: nat, o: nat :: Listed(heap.lists, s, o) ==> s < total && memoryMap[s].isTop
    }

    /** PhysicalMemoryManagementInit: take the page map the boot loader left and cut it up. */
    constructor (map_: array<Page>, pages: nat, order: nat)
      requires FitsInt(order) && pages < 0x800_0000_0000_0000 && map_.Length == pages + 1
      requires pages > 0 && map_[pages - 1].isReserved ==> map_[pages].isReserved
      modifies map_
      ensures Valid() && memoryMap == map_ && total == pages && maxOrder == order && fresh(pageFrameOrder)
      ensures heap.live == map[] && Usable() == old(set p: nat | p < pages && !map_[p].isReserved)
      ensures MarksStarts(old(map_[..]), None)
    {
      maxOrder, total, memoryMap := order, pages, map_;
      pageFrameOrder := new Link[order + 1](_ => Null);
      heap := Heap([], map[]);
      new;
      BuddySystemInit();
    }

    ghost predicate SameFlags(before: seq<Page>)
      reads memoryMap
    {
      && |before| == memoryMap.Length
      && forall p :: 0 <= p < |before| ==>
           && memoryMap[p].isAllocated == before[p].isAllocated
           && memoryMap[p].isReserved == before[p].isReserved
           && memoryMap[p].isTop == before[p].isTop
    }

    method AddToPageFrameOrder(order: nat, page: nat)
      requires Linked() && order <= maxOrder && page < total
      requires forall o :: 0 <= o <= maxOrder ==> page !in heap.lists[o]
      modifies memoryMap, pageFrameOrder, `heap
      ensures Linked() && SameFlags(old(memoryMap[..]))
      ensures heap == old(heap).(lists := old(heap.lists)[order := [page] + old(heap.lists[order])])
      ensures forall p :: 0 <= p <= total && p != page && p !in old(heap.lists[order]) ==>
                memoryMap[p] == old(memoryMap[p])
    {
      ghost var pages, lists := memoryMap[..], heap.lists;
      SpellsPrepended(pages, total, pageFrameOrder[order], order, lists[order], page);
      SpellsBounds(pages, total, pageFrameOrder[order], order, lists[order]);
      var front := pageFrameOrder[order];
      memoryMap[page] := memoryMap[page].(order := order, prev := Null, next := front);
      if front != Null {
        memoryMap[front.id] := memoryMap[front.id].(prev := At(page));
      }
      pageFrameOrder[order] := At(page);
      heap := heap.(lists := heap.lists[order := [page] + heap.lists[order]]);

      assert memoryMap[..] == Prepended(pages, order, front, page);
      forall o | 0 <= o <= maxOrder && o != order
        ensures Spells(memoryMap[..], total, pageFrameOrder[o], o, heap.lists[o])
      {
        SpellsBounds(pages, total, old(pageFrameOrder[o]), o, lists[o]);
        SpellsFrame(pages, memoryMap[..], total, pageFrameOrder[o], o, lists[o]);
      }
    }

    method DeleteFromPageFrameOrder(order: nat, page: nat, ghost k: nat)
      requires Linked() && order <= maxOrder
      requires k < |heap.lists[order]| && heap.lists[order][k] == page
      modifies memoryMap, pageFrameOrder, `heap
      ensures Linked() && SameFlags(old(memoryMap[..]))
      ensures heap == old(heap).(lists :=
                old(heap.lists)[order := old(heap.lists[order])[..k] + old(heap.lists[order])[k + 1..]])
      ensures page < total && memoryMap[page].prev == Null && memoryMap[page].next == Null
      ensures forall p :: 0 <= p <= total && p !in old(heap.lists[order]) ==> memoryMap[p] == old(memoryMap[p])
    {
      ghost var pages, lists := memoryMap[..], heap.lists;
      SpellsUnlinked(pages, total, pageFrameOrder[order], order, lists[order], k);
      SpellsBounds(pages, total, pageFrameOrder[order], order, lists[order]);
      assert Node(pages, total, order, lists[order], k);
      var prev := memoryMap[page].prev;
      var next := memoryMap[page].next;
      if prev == Null {
        pageFrameOrder[order] := next;
      } else {
        memoryMap[prev.id] := memoryMap[prev.id].(next := next);
      }
      if next != Null {
        memoryMap[next.id] := memoryMap[next.id].(prev := prev);
      }
      memoryMap[page] := memoryMap[page].(prev := Null, next := Null);
      heap := heap.(lists := heap.lists[order := heap.lists[order][..k] + heap.lists[order][k + 1..]]);

      assert memoryMap[..] == Unlinked(pages, page);
      forall o | 0 <= o <= maxOrder && o != order
        ensures Spells(memoryMap[..], total, pageFrameOrder[o], o, heap.lists[o])
      {
        SpellsBounds(pages, total, old(pageFrameOrder[o]), o, lists[o]);
        SpellsFrame(pages, memoryMap[..], total, pageFrameOrder[o], o, lists[o]);
      }
    }

    /** TOP marks the pages marked before and the starts of listed blocks, ALLOCATED those
        marked before and the page granted; RESERVED keeps. */
    ghost predicate MarksStarts(before: seq<Page>, granted: Option<nat>)
      reads this, memoryMap
    {
      && |before| == memoryMap.Length == total + 1
      && memoryMap[total].isReserved == before[total].isReserved
      && forall p: nat :: p < total ==>
           && (memoryMap[p].isAllocated <==> before[p].isAllocated || granted == Some(p))
           && memoryMap[p].isReserved == before[p].isReserved
           && (memoryMap[p].isTop <==> before[p].isTop || IsStart(heap.lists, p))
    }

    /** Cut the non-reserved pages greedily, from the lowest up, into aligned blocks. */
    method BuddySystemInit()
      requires FitsInt(maxOrder) && total < 0x800_0000_0000_0000
      requires memoryMap.Length == total + 1 && pageFrameOrder.Length == maxOrder + 1
      requires total > 0 && memoryMap[total - 1].isReserved ==> memoryMap[total].isReserved
      modifies memoryMap, pageFrameOrder, `heap
      ensures Valid() && heap.live == map[]
      ensures Usable() == old(Usable()) && MarksStarts(old(memoryMap[..]), None)
      ensures forall p: nat :: p < total ==>
                && memoryMap[p].isReserved == old(memoryMap[p].isReserved)
                && memoryMap[p].isAllocated == old(memoryMap[p].isAllocated)
                && (memoryMap[p].isTop <==>
                      old(memoryMap[p].isTop) || exists o: nat :: Listed(heap.lists, p, o))
      ensures forall o :: 0 <= o <= maxOrder ==> Descending(heap.lists[o])
    {
      var order := 0;
      while order <= maxOrder
        invariant 0 <= order <= maxOrder + 1
        invariant forall o :: 0 <= o < order ==> pageFrameOrder[o] == Null
        invariant memoryMap[..] == old(memoryMap[..])
      {
        pageFrameOrder[order] := Null;
        order := order + 1;
      }
      heap := Heap(seq(maxOrder + 1, o => []), map[]);
      ghost var free := Usable();
      ScanStart(heap.lists, free, maxOrder);
      assert free == old(Usable());

      var start := 0;
      while start < total
        invariant 0 <= start <= total
        invariant Linked() && heap.live == map[]
        invariant Usable() == free && MarksStarts(old(memoryMap[..]), None)
        invariant Scanned(heap.lists, free, maxOrder, start)
        decreases total - start
      {
        start := NextFree(start, free);
        if memoryMap[start].isReserved {
          break;
        }
        start := CutBlock(start, free, old(memoryMap[..]));
      }
      ScanComplete(heap.lists, free, maxOrder, start);
    }

    /** List the largest aligned block of free pages at start, and step over it. */
    method CutBlock(start: nat, ghost free: set<nat>, ghost before: seq<Page>) returns (next: nat)
      requires FitsInt(maxOrder) && total < 0x800_0000_0000_0000
      requires Linked() && MarksStarts(before, None) && start < total && !memoryMap[start].isReserved
      requires free == Usable() && Scanned(heap.lists, free, maxOrder, start)
      modifies memoryMap, pageFrameOrder, `heap
      ensures Linked() && MarksStarts(before, None) && Usable() == free && heap.live == old(heap.live)
      ensures start < next <= total && Scanned(heap.lists, free, maxOrder, next)
    {
      var order := BlockOrder(start, free);
      SmallPower(order, maxOrder);
      var size := Pow(2, order);
      next := start + size;
      ScanBlock(heap.lists, free, maxOrder, start, order, heap.lists[order := [start] + heap.lists[order]]);
      ListBlock(order, start, before);
    }

    /** The order of the largest aligned block of free pages at start. */
    method BlockOrder(start: nat, ghost free: set<nat>) returns (order: nat)
      requires FitsInt(maxOrder) && total < 0x800_0000_0000_0000
      requires memoryMap.Length == total + 1 && start < total && !memoryMap[start].isReserved
      requires free == Usable() && NoneStraddles(free, maxOrder, start)
      ensures Maximal(free, maxOrder, start, order) && start + Pow2(order) <= total
    {
      var maxBlock := AlignmentOrder(start);
      var end := StreakEnd(start, maxBlock);
      var pageCount := end - start;
      order := Log2(pageCount);
      StreakIsMaximal(free, maxOrder, start, maxBlock, end, order);
    }

    /** Mark `page` as the first of a block and list it. */
    method ListBlock(order: nat, page: nat, ghost before: seq<Page>)
      requires Linked() && MarksStarts(before, None) && order <= maxOrder && page < total
      requires forall o :: 0 <= o <= maxOrder ==> page !in heap.lists[o]
      modifies memoryMap, pageFrameOrder, `heap
      ensures Linked() && MarksStarts(before, None) && Usable() == old(Usable())
      ensures heap == old(heap).(lists := old(heap.lists)[order := [page] + old(heap.lists[order])])
    {
      ghost var pages, lists := memoryMap[..], heap.lists;
      memoryMap[page] := memoryMap[page].(isTop := true);
      forall o | 0 <= o <= maxOrder
        ensures Spells(memoryMap[..], total, pageFrameOrder[o], o, heap.lists[o])
      {
        SpellsFrame(pages, memoryMap[..], total, pageFrameOrder[o], o, heap.lists[o]);
      }
      AddToPageFrameOrder(order, page);
      forall p: nat ensures IsStart(heap.lists, p) <==> IsStart(lists, p) || p == page {
        StartsAfterAdd(lists, order, page, p);
      }
    }

    /** Unlist the front of a list. */
    method TakeFront(order: nat, ghost before: seq<Page>) returns (front: nat)
      requires Linked() && order <= maxOrder && heap.lists[order] != []
      requires MarksStarts(before, None) && heap.lists[order][0] < total && before[heap.lists[order][0]].isTop
      modifies memoryMap, pageFrameOrder, `heap
      ensures Linked() && MarksStarts(before, None) && Usable() == old(Usable())
      ensures front == old(heap.lists[order][0])
      ensures heap == old(heap).(lists := old(heap.lists)[order := old(heap.lists[order])[1..]])
    {
      ghost var lists := heap.lists;
      front := pageFrameOrder[order].id;
      DeleteFromPageFrameOrder(order, front, 0);
      assert lists[order][..0] + lists[order][1..] == lists[order][1..];
      forall p: nat ensures IsStart(lists, p) <==> IsStart(heap.lists, p) || p == front {
        assert [front] + heap.lists[order] == lists[order];
        assert heap.lists[order := lists[order]] == lists;
        StartsAfterAdd(heap.lists, order, front, p);
      }
    }

    /** Replace the front block of order c by its two halves, the lower one in front. */
    method Halve(c: nat, ghost rest: Lists, ghost page: nat, ghost before: seq<Page>)
      requires Linked() && 0 < c <= maxOrder && MarksStarts(before, None)
      requires |rest| == maxOrder + 1 && heap.lists == rest[c := [page] + rest[c]]
      requires page < total && before[page].isTop && Flip(page, c - 1) < total && page != Flip(page, c - 1)
      requires forall o :: 0 <= o <= maxOrder ==> page !in rest[o] && Flip(page, c - 1) !in rest[o]
      modifies memoryMap, pageFrameOrder, `heap
      ensures Linked() && MarksStarts(before, None) && Usable() == old(Usable()) && heap.live == old(heap.live)
      ensures var half := rest[c - 1 := [Flip(page, c - 1)] + rest[c - 1]];
              heap.lists == half[c - 1 := [page] + half[c - 1]]
    {
      var front := TakeFront(c, before);
      assert heap.lists == rest;
      var buddyId := Flip(front, c - 1);
      ListBlock(c - 1, buddyId, before);
      ListBlock(c - 1, front, before);
    }

    /** Halve the front block of order c until a front block of order r is left. */
    method SplitFront(c: nat, r: nat, ghost start: Lists, ghost page: nat, ghost free0: set<nat>,
                      ghost before: seq<Page>)
      requires Linked() && r <= c <= maxOrder && MarksStarts(before, None)
      requires |start| == maxOrder + 1 && heap.lists == start[c := [page] + start[c]]
      requires CanSplit(start, free0, Usable(), maxOrder, page, c) && page < total && before[page].isTop
      modifies memoryMap, pageFrameOrder, `heap
      ensures Linked() && MarksStarts(before, None) && Usable() == old(Usable()) && heap.live == old(heap.live)
      ensures var l := Split(start, page, c, r); heap.lists == l[r := [page] + l[r]]
    {
      ghost var rest: Lists, free: set<nat> := start, free0;
      var currentOrder := c;
      while currentOrder > r
        invariant r <= currentOrder <= c && Linked() && MarksStarts(before, None)
        invariant Usable() == old(Usable()) && heap.live == old(heap.live)
        invariant CanSplit(rest, free, Usable(), maxOrder, page, currentOrder)
        invariant heap.lists == rest[currentOrder := [page] + rest[currentOrder]]
        invariant Split(rest, page, currentOrder, r) == Split(start, page, c, r)
      {
        SplitStep(rest, free, Usable(), maxOrder, page, currentOrder);
        Halve(currentOrder, rest, page, before);
        currentOrder := currentOrder - 1;
        rest := rest[currentOrder := [page + Pow2(currentOrder)] + rest[currentOrder]];
        free := free + Units(page + Pow2(currentOrder), currentOrder);
      }
    }

    /** Split the front block of order c down to order r and mark it allocated. */
    method Grant(c: nat, r: nat) returns (page: nat)
      requires Valid() && r <= c <= maxOrder && c == FirstFit(heap.lists, r)
      modifies memoryMap, pageFrameOrder, `heap
      ensures Linked() && Usable() == old(Usable())
      ensures Allocate(old(heap), r) == Some((heap, page))
      ensures MarksStarts(old(memoryMap[..]), Some(page))
    {
      ghost var before, start, first := memoryMap[..], heap.lists[c := heap.lists[c][1..]], heap.lists[c][0];
      TakenCanSplit(heap, Usable(), maxOrder, c);
      assert start[c := [first] + start[c]] == heap.lists by {
        assert [first] + heap.lists[c][1..] == heap.lists[c];
      }
      SplitFront(c, r, start, first, FreeUnits(Usable(), heap.live) - Units(first, c), before);
      ghost var l := Split(start, first, c, r);
      assert ([first] + l[r])[1..] == l[r];
      page := TakeFront(r, before);
      assert heap.lists == l;
      ghost var pages := memoryMap[..];
      memoryMap[page] := memoryMap[page].(isAllocated := true);
      heap := heap.(live := heap.live[page := r]);
      forall o | 0 <= o <= maxOrder
        ensures Spells(memoryMap[..], total, pageFrameOrder[o], o, heap.lists[o])
      {
        SpellsFrame(pages, memoryMap[..], total, pageFrameOrder[o], o, heap.lists[o]);
      }
    }

    method AllocatePageFrames(requestedPageNumber: int) returns (address: nat)
      requires Valid()
      requires -0x8000_0000 <= requestedPageNumber < 0x8000_0000 && requestedPageNumber != 0
      modifies memoryMap, pageFrameOrder, `heap
      ensures Valid() && Usable() == old(Usable())
      ensures match Allocate(old(heap), CeilLog2(AsUnsigned(requestedPageNumber)))
              case None =>
                address == 0 && heap == old(heap) && memoryMap[..] == old(memoryMap[..])
              case Some(got) =>
                address == 4096 * got.1 && heap == got.0 && MarksStarts(old(memoryMap[..]), Some(got.1))
      ensures requestedPageNumber >= 1 ==>
                RightSize(old(heap), heap, requestedPageNumber, Usable(), maxOrder, address)
      ensures requestedPageNumber < 0 ==> address == 0 && heap == old(heap) && memoryMap[..] == old(memoryMap[..])
      ensures forall p: nat :: p < total ==>
                && memoryMap[p].isReserved == old(memoryMap[p].isReserved)
                && (memoryMap[p].isAllocated <==>
                      old(memoryMap[p].isAllocated) || (p in heap.live && p !in old(heap.live)))
      ensures 0 !in Usable() ==>
                (address == 0 <==> Allocate(old(heap), CeilLog2(AsUnsigned(requestedPageNumber))).None?)
    {
      RequestMeans(heap, Usable(), maxOrder, requestedPageNumber);
      var requestedOrder := RequestedOrder(AsUnsigned(requestedPageNumber));
      AllocateCorrect(heap, Usable(), maxOrder, requestedOrder);
      if requestedOrder > maxOrder {
        return 0;
      }
      var currentOrder := FindOrder(requestedOrder);
      if currentOrder > maxOrder {
        return 0;
      }
      ghost var pages := memoryMap[..];
      GrantUsable(heap, Usable(), maxOrder, requestedOrder);
      var page := Grant(currentOrder, requestedOrder);
      ListedMarked(pages, Some(page));
      return 4096 * page;
    }

    lemma ListedMarked(before: seq<Page>, granted: Option<nat>)
      requires Linked() && MarksStarts(before, granted)
      ensures forall s: nat, o: nat :: Listed(heap.lists, s, o) ==> s < total && memoryMap[s].isTop
    {
      forall s: nat, o: nat | Listed(heap.lists, s, o) ensures s < total && memoryMap[s].isTop {
        SpellsBounds(memoryMap[..], total, pageFrameOrder[o], o, heap.lists[o]);
        assert IsStart(heap.lists, s);
      }
    }

    /** The first order from r up whose list has a block; maxOrder + 1 if there is none. */
    method FindOrder(r: nat) returns (c: nat)
      requires Linked() && r <= maxOrder
      ensures c == FirstFit(heap.lists, r)
    {
      c := r;
      while c <= maxOrder
        invariant r <= c <= maxOrder + 1
        invariant FirstFit(heap.lists, r) == FirstFit(heap.lists, c)
      {
        assert Spells(memoryMap[..], total, pageFrameOrder[c], c, heap.lists[c]);
        if pageFrameOrder[c] != Null {
          break;
        }
        c := c + 1;
      }
    }

    /** Skip reserved pages; reads the word behind the map when it reaches the end. */
    method NextFree(from: nat, ghost free: set<nat>) returns (start: nat)
      requires memoryMap.Length == total + 1 && from < total
      requires memoryMap[total - 1].isReserved ==> memoryMap[total].isReserved
      requires free == Usable() && Scanned(heap.lists, free, maxOrder, from)
      ensures from <= start <= total && Scanned(heap.lists, free, maxOrder, start)
      ensures start == total ==> memoryMap[total].isReserved
      ensures memoryMap[start].isReserved ==> start == total
    {
      start := from;
      while memoryMap[start].isReserved && start < total
        invariant from <= start <= total
        invariant Scanned(heap.lists, free, maxOrder, start)
        invariant start == total ==> memoryMap[total - 1].isReserved
      {
        ScanReserved(heap.lists, free, maxOrder, start);
        start := start + 1;
      }
    }

    /** The largest order, capped, to which start is aligned: its lowest set bit. */
    method AlignmentOrder(start: nat) returns (order: nat)
      ensures order <= maxOrder && Aligned(start, order)
      ensures order < maxOrder ==> BitSet(start, order)
    {
      order := 0;
      var i := 0;
      while i <= maxOrder
        invariant 0 <= i <= maxOrder + 1
        invariant i <= maxOrder ==> Aligned(start, i)
        invariant i == maxOrder + 1 ==> order == maxOrder && Aligned(start, order)
      {
        if BitSet(start, i) {
          order := i;
          break;
        }
        if i == maxOrder {
          order := maxOrder;
        } else {
          ParentProperties(start, i);
        }
        i := i + 1;
      }
    }

    /** The end of the run of free pages from start, cut off after 2^maxBlock pages. */
    method StreakEnd(start: nat, maxBlock: nat) returns (end: nat)
      requires memoryMap.Length == total + 1 && start < total && !memoryMap[start].isReserved
      requires maxBlock <= maxOrder && FitsInt(maxOrder)
      ensures start < end <= total && end - start <= Pow2(maxBlock)
      ensures forall p :: start <= p < end ==> !memoryMap[p].isReserved
      ensures end == total || end - start == Pow2(maxBlock) || memoryMap[end].isReserved
    {
      SmallPower(maxBlock, maxOrder);
      var maxPageCount := Pow(2, maxBlock);
      end := start + 1;
      while true
        invariant start < end <= total && end - start <= maxPageCount
        invariant forall p :: start <= p < end ==> !memoryMap[p].isReserved
        decreases total - end
      {
        if end == total || end - start == maxPageCount {
          break;
        }
        if memoryMap[end].isReserved {
          break;
        }
        end := end + 1;
      }
    }
  }

  // ---------------------------------------------------------------- the greedy scan

  ghost predicate IsStart(lists: Lists, p: nat) {
    exists o: nat :: Listed(lists, p, o)
  }

  /** The unlisted block (page, c) of usable units shares none with the listed ones. */
  ghost predicate CanSplit(lists: Lists, free: set<nat>, usable: set<nat>, max: nat, page: nat, c: nat) {
    && Canonical(lists, free, max)
    && c <= max && Aligned(page, c) && WhollyFree(usable, page, c)
    && forall p :: p in Units(page, c) ==> p !in free
  }

  lemma NotListed(lists: Lists, free: set<nat>, max: nat, p: nat)
    requires Canonical(lists, free, max) && p !in free
    ensures forall o :: 0 <= o <= max ==> p !in lists[o]
  {
    forall o: nat | o <= max ensures p !in lists[o] {
      assert Within(p, p, o);
      assert Listed(lists, p, o) ==> WhollyFree(free, p, o);
    }
  }

  lemma SplitStep(lists: Lists, free: set<nat>, usable: set<nat>, max: nat, page: nat, c: nat)
    requires CanSplit(lists, free, usable, max, page, c) && 0 < c
    ensures var half := page + Pow2(c - 1);
            && Flip(page, c - 1) == half && half in usable && page in usable
            && (forall o :: 0 <= o <= max ==> page !in lists[o] && half !in lists[o])
            && CanSplit(lists[c - 1 := [half] + lists[c - 1]], free + Units(half, c - 1), usable, max, page, c - 1)
  {
    var half := page + Pow2(c - 1);
    Halves(page, c - 1);
    assert Within(page, page, c) && Within(half, page, c);
    assert page in Units(page, c) && half in Units(page, c);
    NotListed(lists, free, max, page);
    NotListed(lists, free, max, half);
    assert page !in free + Units(half, c - 1);
    AddBlock(lists, free, max, half, c - 1);
  }

  lemma TakenCanSplit(h: Heap, usable: set<nat>, max: nat, c: nat)
    requires Inv(h, usable, max) && c <= max && h.lists[c] != []
    ensures var first := h.lists[c][0];
            && CanSplit(h.lists[c := h.lists[c][1..]], FreeUnits(usable, h.live) - Units(first, c), usable, max,
                        first, c)
            && Listed(h.lists, first, c)
  {
    TakeHead(h.lists, FreeUnits(usable, h.live), max, c);
  }

  /** So a grant of a usable page 0 is the only one an address 0 can stand for. */
  lemma GrantUsable(h: Heap, usable: set<nat>, max: nat, r: nat)
    requires Inv(h, usable, max)
    ensures Allocate(h, r).Some? ==> Allocate(h, r).value.1 in usable
  {
    AllocateCorrect(h, usable, max, r);
    if Allocate(h, r).Some? {
      var s := Allocate(h, r).value.1;
      assert Within(s, s, r);
    }
  }

  lemma StartsAfterAdd(lists: Lists, order: nat, page: nat, p: nat)
    requires order < |lists|
    ensures IsStart(lists[order := [page] + lists[order]], p) <==> IsStart(lists, p) || p == page
  {
    var more := lists[order := [page] + lists[order]];
    if IsStart(lists, p) {
      var o: nat :| Listed(lists, p, o);
      assert Listed(more, p, o);
    }
    if IsStart(more, p) && p != page {
      var o: nat :| Listed(more, p, o);
      assert Listed(lists, p, o);
    }
    assert Listed(more, page, order);
  }

  /** No maximal free run begins before `start` and reaches past it. */
  ghost predicate NoneStraddles(free: set<nat>, max: nat, start: nat) {
    forall s: nat, o: nat :: Maximal(free, max, s, o) && s < start ==> s + Pow2(o) <= start
  }

  /** The lists hold the maximal runs below `start`, highest first. */
  ghost predicate Scanned(lists: Lists, free: set<nat>, max: nat, start: nat) {
    && |lists| == max + 1
    && (forall s: nat, o: nat :: Listed(lists, s, o) <==> Maximal(free, max, s, o) && s < start)
    && (forall o :: 0 <= o <= max ==> Descending(lists[o]))
    && NoneStraddles(free, max, start)
  }

  lemma ScanStart(lists: Lists, free: set<nat>, max: nat)
    requires |lists| == max + 1 && forall o :: 0 <= o <= max ==> lists[o] == []
    ensures Scanned(lists, free, max, 0)
    ensures forall p: nat :: !IsStart(lists, p)
  {
  }

  lemma ScanReserved(lists: Lists, free: set<nat>, max: nat, start: nat)
    requires Scanned(lists, free, max, start) && start !in free
    ensures Scanned(lists, free, max, start + 1)
  {
  }

  /** The greedy block is a maximal run: a larger one holding it would either be found
      greedily too or begin before `start`. */
  lemma StreakIsMaximal(free: set<nat>, max: nat, start: nat, maxBlock: nat, end: nat, o: nat)
    requires NoneStraddles(free, max, start) && maxBlock <= max && Aligned(start, maxBlock)
    requires maxBlock < max ==> BitSet(start, maxBlock)
    requires start < end && Pow2(o) <= end - start < Pow2(o + 1) && end - start <= Pow2(maxBlock)
    requires forall p :: start <= p < end ==> p in free
    requires end !in free || end - start == Pow2(maxBlock)
    ensures Maximal(free, max, start, o)
  {
    if maxBlock < o {
      Pow2Monotone(maxBlock, o);
      assert false;
    }
    AlignedBelow(start, maxBlock, o);
    if o < max && WhollyFree(free, Parent(start, o), o + 1) {
      ParentProperties(start, o);
      if BitSet(start, o) {
        var t, q := MaximalAbove(free, max, Parent(start, o), o + 1);
        assert false;
      } else {
        Pow2Monotone(o + 1, maxBlock);
        assert Within(end, start, o + 1);
        assert false;
      }
    }
  }

  lemma ScanBlock(lists: Lists, free: set<nat>, max: nat, start: nat, o: nat, more: Lists)
    requires Scanned(lists, free, max, start) && Maximal(free, max, start, o)
    requires more == lists[o := [start] + lists[o]]
    ensures Scanned(more, free, max, start + Pow2(o))
    ensures forall q :: 0 <= q <= max ==> start !in lists[q]
  {
    forall s: nat, q: nat | Maximal(free, max, s, q) && start <= s < start + Pow2(o)
      ensures s == start && q == o
    {
      if s != start || q != o {
        MaximalDisjoint(free, max, start, o, s, q);
        assert false;
      }
    }
    forall s: nat, q: nat
      ensures Listed(more, s, q) <==> Maximal(free, max, s, q) && s < start + Pow2(o)
    {
      assert Listed(more, s, q) <==> Listed(lists, s, q) || (s == start && q == o);
    }
    forall q, i, j | 0 <= q <= max && 0 <= i < j < |more[q]|
      ensures more[q][i] > more[q][j]
    {
      if q == o {
        assert Listed(lists, lists[o][j - 1], o);
      }
    }
    forall q | 0 <= q <= max ensures start !in lists[q] {
      assert !Listed(lists, start, q);
    }
  }

  lemma ScanComplete(lists: Lists, free: set<nat>, max: nat, start: nat)
    requires Scanned(lists, free, max, start)
    requires forall p :: p in free ==> p < start
    ensures Canonical(lists, free, max)
    ensures FreeUnits(free, map[]) == free
  {
    forall s: nat, o: nat | Maximal(free, max, s, o) ensures s < start {
      assert Within(s, s, o);
    }
  }
}
