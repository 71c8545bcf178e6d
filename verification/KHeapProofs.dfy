/** The kernel heap refines the buddy system, and what follows for whole runs: exact undo
    in last-in first-out order, and merging back into one block under the guard. */
module KHeapProofs {
  import opened Util
  import opened Buddy
  import opened BuddyRuns
  import opened KHeap

  /** st is a well-formed heap of 2^max blocks with the lists and live blocks h. */
  ghost predicate WellFormed(st: State, h: Heap, max: nat) {
    && Represents(st, h, max)
    && Inv(h, Units(0, max), max)
    && Sane(st, max)
  }

  // ---------------------------------------------------------------- kmalloc

  lemma FirstHeadIsFirstFit(st: State, h: Heap, max: nat, r: nat)
    requires Represents(st, h, max) && r <= max + 1
    ensures FirstHead(st.heads, r) == FirstFit(h.lists, r)
    decreases max + 1 - r
  {
    if r <= max {
      assert Stack(st, r, h.lists[r]);
      FirstHeadIsFirstFit(st, h, max, r + 1);
    }
  }

  /** The lists `rest` with the block (page, c), which shares no unit with them, pushed. */
  ghost function Pushed(rest: Lists, live: map<nat, nat>, page: nat, c: nat): Heap
    requires c < |rest|
  {
    Heap(rest[c := [page] + rest[c]], live)
  }

  ghost predicate CanCut(rest: Lists, free: set<nat>, live: map<nat, nat>, max: nat, page: nat, c: nat) {
    && Canonical(rest, free, max) && c <= max && Aligned(page, c)
    && (forall p :: p in Units(page, c) ==> p !in free && p < Pow2(max) && p !in live)
  }

  lemma NotInLists(lists: Lists, free: set<nat>, max: nat, p: nat)
    requires Canonical(lists, free, max) && p !in free
    ensures !InSomeList(lists, p)
  {
  }

  /** Cutting from order c to order o = c - 1: the upper half goes into `more`. */
  lemma CutStep(rest: Lists, free: set<nat>, live: map<nat, nat>, max: nat, page: nat, c: nat,
                o: nat, half: nat, more: Lists)
    requires CanCut(rest, free, live, max, page, c) && c == o + 1 && half == page + Pow2(o)
    requires more == rest[o := [half] + rest[o]]
    ensures half < Pow2(max) && half !in live && page !in live && half != page
    ensures !InSomeList(rest, page) && !InSomeList(rest, half)
    ensures CanCut(more, free + Units(half, o), live, max, page, o)
  {
    Halves(page, o);
    assert Within(page, page, c) && Within(half, page, c);
    assert page in Units(page, c) && half in Units(page, c);
    NotInLists(rest, free, max, page);
    NotInLists(rest, free, max, half);
    assert page !in free + Units(half, o);
    AddBlock(rest, free, max, half, o);
  }

  lemma RepresentsAddTwo(st: State, rest: Lists, live: map<nat, nat>, max: nat, o: nat, half: nat, page: nat)
    requires Represents(st, Heap(rest, live), max) && Sane(st, max) && o <= max && half != page
    requires half < |st.blocks| && page < |st.blocks| && half !in live && page !in live
    requires !InSomeList(rest, half) && !InSomeList(rest, page)
    ensures Represents(Add(Add(st, max, o, half), max, o, page),
                       Pushed(rest[o := [half] + rest[o]], live, page, o), max)
  {
    assert live - {half} == live && live - {page} == live;
    RepresentsAdd(st, Heap(rest, live), max, o, half);
    ListsAfterPush(rest, o, half, page);
    RepresentsAdd(Add(st, max, o, half), Heap(rest[o := [half] + rest[o]], live), max, o, page);
  }

  /** One round of the split loop. */
  lemma CutOnce(st: State, rest: Lists, free: set<nat>, live: map<nat, nat>, max: nat, page: nat, c: nat,
                o: nat, half: nat, more: Lists)
    requires CanCut(rest, free, live, max, page, c) && c == o + 1 && half == page + Pow2(o)
    requires more == rest[o := [half] + rest[o]]
    requires Represents(st, Pushed(rest, live, page, c), max) && Sane(st, max)
    ensures st.heads[c] == At(page) && page < |st.blocks| && half < |st.blocks|
    ensures Represents(Halved(st, max, c, o, page, half), Pushed(more, live, page, o), max)
  {
    var h := Pushed(rest, live, page, c);
    CutStep(rest, free, live, max, page, c, o, half, more);
    assert Stack(st, c, h.lists[c]);
    assert h.lists[c][1..] == rest[c];
    assert h.lists[c := rest[c]] == rest;
    assert h.lists[c][0] == page;
    RepresentsDelete(st, h, max, c);
    assert h.(lists := h.lists[c := h.lists[c][1..]]) == Heap(rest, live);
    RepresentsAddTwo(Delete(st, max, c, page), rest, live, max, o, half, page);
  }

  lemma SplitUnroll(rest: Lists, page: nat, c: nat, o: nat, half: nat, more: Lists, r: nat)
    requires r <= o && c == o + 1 < |rest| && half == page + Pow2(o) && more == rest[o := [half] + rest[o]]
    ensures Split(rest, page, c, r) == Split(more, page, o, r)
  {
  }

  /** Every front and buddy the split loop touches exists. */
  predicate CutSafe(st: State, max: nat, c: nat, r: nat)
    requires Sane(st, max) && r <= c <= max
    decreases c
  {
    c == r ||
    (st.heads[c] != Null && st.heads[c].id + Pow2(c - 1) < |st.blocks| &&
     CutSafe(Halved(st, max, c, c - 1, st.heads[c].id, st.heads[c].id + Pow2(c - 1)), max, c - 1, r))
  }

  lemma CutSafeFront(st: State, max: nat, c: nat, o: nat, r: nat)
    requires Sane(st, max) && r <= o && c == o + 1 <= max && CutSafe(st, max, c, r)
    ensures st.heads[c] != Null && st.heads[c].id + Pow2(o) < |st.blocks|
  {
  }

  lemma CutUnroll(st: State, max: nat, page: nat, c: nat, o: nat, half: nat, r: nat)
    requires Sane(st, max) && r <= o && c == o + 1 <= max && half == page + Pow2(o)
    requires st.heads[c] == At(page) && half < |st.blocks| && page < |st.blocks|
    ensures Cut(st, max, c, r) == Cut(Halved(st, max, c, o, page, half), max, o, r)
  {
  }

  lemma CutSafeUnroll(st: State, max: nat, page: nat, c: nat, o: nat, half: nat, r: nat)
    requires Sane(st, max) && r <= o && c == o + 1 <= max && half == page + Pow2(o)
    requires st.heads[c] == At(page) && half < |st.blocks| && page < |st.blocks|
    ensures CutSafe(st, max, c, r) <==> CutSafe(Halved(st, max, c, o, page, half), max, o, r)
  {
  }

  lemma {:induction false} CutRefines(st: State, rest: Lists, free: set<nat>, live: map<nat, nat>, max: nat,
                                      page: nat, c: nat, r: nat)
    requires CanCut(rest, free, live, max, page, c) && r <= c
    requires Represents(st, Pushed(rest, live, page, c), max) && Sane(st, max)
    ensures CutSafe(st, max, c, r)
    ensures Represents(Cut(st, max, c, r), Pushed(Split(rest, page, c, r), live, page, r), max)
    decreases c
  {
    if r < c {
      var o: nat, half := c - 1, page + Pow2(c - 1);
      var more: Lists := rest[o := [half] + rest[o]];
      CutStep(rest, free, live, max, page, c, o, half, more);
      CutOnce(st, rest, free, live, max, page, c, o, half, more);
      var after := Halved(st, max, c, o, page, half);
      CutUnroll(st, max, page, c, o, half, r);
      CutSafeUnroll(st, max, page, c, o, half, r);
      SplitUnroll(rest, page, c, o, half, more, r);
      CutRefines(after, more, free + Units(half, o), live, max, page, o, r);
    }
  }

  lemma RepresentsMark(st: State, h: Heap, max: nat, id: nat, order: nat)
    requires Represents(st, h, max) && id < |st.blocks| && id !in h.live && !InSomeList(h.lists, id)
    ensures Represents(st.(blocks := st.blocks[id := st.blocks[id].(order := order, isAllocated := true)]),
                       h.(live := h.live[id := order]), max)
  {
    var after := st.(blocks := st.blocks[id := st.blocks[id].(order := order, isAllocated := true)]);
    forall q: nat | q <= max ensures Stack(after, q, h.lists[q]) {
      assert Stack(st, q, h.lists[q]);
      assert !Listed(h.lists, id, q);
      StackFrame(st, after, q, h.lists[q]);
    }
  }

  /** kmalloc on a well-formed heap is the buddy system's allocation: refused exactly when
      it refuses, otherwise handing out the block it picks and keeping well-formedness. */
  lemma KmallocRefines(st: State, h: Heap, max: nat, start: nat, size: nat)
    requires WellFormed(st, h, max) && size >= 1
    ensures size > BLOCK_SIZE * Pow2(max) ==> Kmalloc(st, max, start, size) == (st, 0)
    ensures size <= BLOCK_SIZE * Pow2(max) ==>
              match Allocate(h, CeilLog2(RequestedBlocks(size)))
              case None => Kmalloc(st, max, start, size) == (st, 0)
              case Some(got) =>
                && WellFormed(Kmalloc(st, max, start, size).0, got.0, max)
                && Kmalloc(st, max, start, size).1 == start + BLOCK_SIZE * got.1
  {
    if size <= BLOCK_SIZE * Pow2(max) {
      var order := CeilLog2(RequestedBlocks(size));
      OrderFits(size, max);
      FirstHeadIsFirstFit(st, h, max, order);
      AllocateCorrect(h, Units(0, max), max, order);
      var c := FirstFit(h.lists, order);
      if c <= max {
        AllocatedRefines(st, h, max, c, order);
      }
    }
  }

  lemma AllocatedRefines(st: State, h: Heap, max: nat, c: nat, order: nat)
    requires WellFormed(st, h, max) && order <= c <= max && c == FirstFit(h.lists, order)
    ensures CutSafe(st, max, c, order)
    ensures var (cut, page) := (Cut(st, max, c, order), h.lists[c][0]);
            && cut.heads[order] == At(page) && page < |cut.blocks|
            && Represents(Taken(cut, max, order, page), Allocate(h, order).value.0, max)
  {
    var page, free := h.lists[c][0], FreeUnits(Units(0, max), h.live);
    var rest := h.lists[c := h.lists[c][1..]];
    TakeHead(h.lists, free, max, c);
    forall p | p in Units(page, c) ensures p < Pow2(max) && p !in h.live {
      assert Within(p, page, c);
      FreshStart(h, Units(0, max), p);
    }
    assert Pushed(rest, h.live, page, c) == h by {
      assert [page] + h.lists[c][1..] == h.lists[c];
    }
    CutRefines(st, rest, free - Units(page, c), h.live, max, page, c, order);
    var cut, l := Cut(st, max, c, order), Split(rest, page, c, order);
    var pushed := Pushed(l, h.live, page, order);
    assert Stack(cut, order, pushed.lists[order]);
    RepresentsDelete(cut, pushed, max, order);
    assert pushed.lists[order := pushed.lists[order][1..]] == l;
    RepresentsMark(Delete(cut, max, order, page), Heap(l, h.live), max, page, order);
  }

  lemma KmallocUnfold(st: State, max: nat, start: nat, size: nat, order: nat, c: nat, cut: State, page: nat)
    requires Sane(st, max) && 1 <= size <= BLOCK_SIZE * Pow2(max)
    requires order == CeilLog2(RequestedBlocks(size)) <= max && c == FirstHead(st.heads, order) <= max
    requires cut == Cut(st, max, c, order) && cut.heads[order] == At(page) && page < |cut.blocks|
    ensures Kmalloc(st, max, start, size).0 == Taken(cut, max, order, page)
    ensures Kmalloc(st, max, start, size).1 == start + BLOCK_SIZE * page
  {
  }

  lemma KmallocGrants(st: State, h: Heap, max: nat, start: nat, size: nat, c: nat, order: nat)
    requires WellFormed(st, h, max) && 1 <= size <= BLOCK_SIZE * Pow2(max) && order == CeilLog2(RequestedBlocks(size))
    requires order <= c <= max && c == FirstHead(st.heads, order)
    ensures c == FirstFit(h.lists, order) && CutSafe(st, max, c, order) && Allocate(h, order).Some?
    ensures var (cut, page) := (Cut(st, max, c, order), h.lists[c][0]);
            && cut.heads[order] == At(page) && page < |cut.blocks|
            && Kmalloc(st, max, start, size).0 == Taken(cut, max, order, page)
            && Kmalloc(st, max, start, size).1 == start + BLOCK_SIZE * page
  {
    OrderFits(size, max);
    FirstHeadIsFirstFit(st, h, max, order);
    AllocatedRefines(st, h, max, c, order);
    KmallocUnfold(st, max, start, size, order, c, Cut(st, max, c, order), h.lists[c][0]);
  }

  // ---------------------------------------------------------------- kfree under the guard

  /** The parent block starts at the lower of the two buddies. */
  lemma ParentIsLower(id: nat, o: nat, max: nat)
    requires o < max && id < Pow2(max)
    ensures Flip(id, o) < Pow2(max) && Parent(id, o) < Pow2(max)
    ensures Parent(id, o) == if id < Flip(id, o) then id else Flip(id, o)
  {
    FlipBelow(id, o, max);
  }

  lemma AbsorbIs(st: State, max: nat, id: nat, o: nat, up: nat)
    requires Sane(st, max) && o < max && up == o + 1 && id < |st.blocks|
    ensures Flip(id, o) < |st.blocks| && Parent(id, o) < |st.blocks|
    ensures Absorb(st, max, id, o) ==
              Add(Delete(Delete(st, max, o, id), max, o, Flip(id, o)), max, up, Parent(id, o))
  {
    ParentIsLower(id, o, max);
  }

  /** One unrolling of the merge loop; up is o + 1. */
  lemma MergeStep(st: State, max: nat, id: nat, o: nat, up: nat)
    requires Sane(st, max) && o < max && up == o + 1 && id < |st.blocks|
    ensures Flip(id, o) < |st.blocks| && Parent(id, o) < |st.blocks|
    ensures Merge(st, max, id, o) ==
              if st.blocks[Flip(id, o)].isAllocated then st
              else Merge(Absorb(st, max, id, o), max, Parent(id, o), up)
  {
    ParentIsLower(id, o, max);
    var next := Absorb(st, max, id, o);
    if !st.blocks[Flip(id, o)].isAllocated {
      assert Merge(st, max, id, o) == Merge(next, max, Parent(id, o), o + 1);
    }
  }

  /** One round of the merge loop whose buddy heads its list. */
  lemma AbsorbRefines(st: State, lists: Lists, live: map<nat, nat>, max: nat, id: nat, o: nat, up: nat)
    requires |lists| == max + 1 && o < max && up == o + 1
    requires id !in live && !InSomeList(lists, id) && id < Pow2(max)
    requires Sane(st, max) && Represents(st, Pushed(lists, live, id, o), max)
    requires lists[o] != [] && lists[o][0] == Flip(id, o)
    ensures var buddy, lower, tail := Flip(id, o), Parent(id, o), lists[o := lists[o][1..]];
            && buddy < |st.blocks| && lower < |st.blocks| && !st.blocks[buddy].isAllocated
            && lower !in live && !InSomeList(tail, lower)
            && Represents(Absorb(st, max, id, o), Pushed(tail, live, lower, up), max)
  {
    AbsorbIs(st, max, id, o, up);
    var buddy, lower, h := Flip(id, o), Parent(id, o), Pushed(lists, live, id, o);
    var tail := lists[o := lists[o][1..]];
    TakeTwo(st, lists, live, max, id, o, buddy);
    assert live - {lower} == live;
    RepresentsAdd(Delete(Delete(st, max, o, id), max, o, buddy), Heap(tail, live), max, up, lower);
  }

  lemma TakeTwo(st: State, lists: Lists, live: map<nat, nat>, max: nat, id: nat, o: nat, buddy: nat)
    requires |lists| == max + 1 && o < max && !InSomeList(lists, id) && id < Pow2(max)
    requires Sane(st, max) && Represents(st, Pushed(lists, live, id, o), max)
    requires lists[o] != [] && lists[o][0] == buddy
    ensures buddy < |st.blocks| && !st.blocks[buddy].isAllocated && buddy !in live
    ensures var tail := lists[o := lists[o][1..]];
            && !InSomeList(tail, id) && !InSomeList(tail, buddy)
            && Represents(Delete(Delete(st, max, o, id), max, o, buddy), Heap(tail, live), max)
  {
    var h, tail := Pushed(lists, live, id, o), lists[o := lists[o][1..]];
    assert h.lists[o][0] == id && h.lists[o][1] == buddy;
    assert Listed(h.lists, buddy, o);
    var _ := ListedNode(st, h, max, buddy, o);
    RepresentsDelete(st, h, max, o);
    assert h.lists[o][1..] == lists[o];
    assert h.lists[o := lists[o]] == lists;
    assert h.(lists := h.lists[o := h.lists[o][1..]]) == Heap(lists, live);
    RepresentsDelete(Delete(st, max, o, id), Heap(lists, live), max, o);
    assert [buddy] + tail[o] == lists[o] && tail[o := lists[o]] == lists;
    ListsAfterPush(tail, o, buddy, id);
  }

  lemma CoalesceUnroll(lists: Lists, live: map<nat, nat>, max: nat, id: nat, o: nat, up: nat, tail: Lists, lower: nat)
    requires |lists| == max + 1 && o < max && up == o + 1 && Flip(id, o) !in live && MergeGuard(lists, live, id, o, max)
    requires tail == lists[o := lists[o][1..]] && lower == Parent(id, o)
    ensures MergeGuard(tail, live, lower, up, max)
    ensures Coalesce(lists, live, id, o, max) == Coalesce(tail, live, lower, up, max)
  {
    GuardAbove(lists, tail, live, lower, up, max);
  }

  lemma {:induction false} MergeRefines(st: State, lists: Lists, live: map<nat, nat>, max: nat, id: nat, o: nat)
    requires |lists| == max + 1 && o <= max && id !in live && !InSomeList(lists, id) && id < Pow2(max)
    requires Sane(st, max) && Represents(st, Pushed(lists, live, id, o), max)
    requires MergeGuard(lists, live, id, o, max)
    ensures Represents(Merge(st, max, id, o), Heap(Coalesce(lists, live, id, o, max), live), max)
    decreases max - o
  {
    if o < max {
      var up := o + 1;
      MergeStep(st, max, id, o, up);
      if Flip(id, o) !in live {
        AbsorbRefines(st, lists, live, max, id, o, up);
        var tail, lower := lists[o := lists[o][1..]], Parent(id, o);
        CoalesceUnroll(lists, live, max, id, o, up, tail, lower);
        MergeRefines(Absorb(st, max, id, o), tail, live, max, lower, up);
      }
    }
  }

  lemma LiveNotListed(h: Heap, usable: set<nat>, max: nat, id: nat)
    requires Inv(h, usable, max) && id in h.live
    ensures !InSomeList(h.lists, id)
  {
    assert Within(id, id, h.live[id]);
    NotInLists(h.lists, FreeUnits(usable, h.live), max, id);
  }

  /** kfree of a live block whose buddies meet the guard is the buddy system's release. */
  lemma KfreeIsMerge(st: State, h: Heap, max: nat, start: nat, address: nat, id: nat)
    requires address == start + BLOCK_SIZE * id
    requires Represents(st, h, max) && Sane(st, max) && id in h.live
    ensures id < |st.blocks| && h.live[id] <= max
    ensures Kfree(st, max, start, address) == Merge(Add(st, max, h.live[id], id), max, id, h.live[id])
  {
    assert BLOCK_SIZE * id / BLOCK_SIZE == id;
  }

  lemma KfreeRefines(st: State, h: Heap, max: nat, start: nat, address: nat, id: nat)
    requires address == start + BLOCK_SIZE * id
    requires WellFormed(st, h, max) && id in h.live
    requires MergeGuard(h.lists, h.live - {id}, id, h.live[id], max)
    ensures WellFormed(Kfree(st, max, start, address), Release(h, id, max), max)
  {
    var o, live := h.live[id], h.live - {id};
    LiveNotListed(h, Units(0, max), max, id);
    KfreeIsMerge(st, h, max, start, address, id);
    RepresentsAdd(st, h, max, o, id);
    assert Represents(Add(st, max, o, id), Pushed(h.lists, live, id, o), max);
    MergeRefines(Add(st, max, o, id), h.lists, live, max, id, o);
    ReleaseCorrect(h, Units(0, max), max, id);
  }

  // ---------------------------------------------------------------- exact undo

  /** The heap kHeapInit sets up. */
  function InitialHeap(max: nat): Heap {
    Heap(seq(max + 1, o => if o == max then [0] else []), map[])
  }

  function Initial(max: nat): State {
    State(seq(Pow2(max), i => if i == 0 then DEFAULT.(order := max) else DEFAULT),
          seq(max + 1, o => if o == max then At(0) else Null))
  }

  lemma InitialWellFormed(max: nat)
    ensures WellFormed(Initial(max), InitialHeap(max), max) && BuddiesLive(InitialHeap(max), max)
  {
    var h, st, free := InitialHeap(max), Initial(max), Units(0, max);
    assert FreeUnits(free, h.live) == free;
    ZeroAligned(max);
    assert Maximal(free, max, 0, max);
    forall s: nat, o: nat ensures Listed(h.lists, s, o) <==> Maximal(free, max, s, o) {
      assert Within(s, s, o);
      if Maximal(free, max, s, o) && (s != 0 || o != max) {
        MaximalDisjoint(free, max, 0, max, s, o);
        assert false;
      }
    }
    assert Listed(h.lists, 0, max);
    forall o: nat | o <= max ensures Stack(st, o, h.lists[o]) {
      assert o == max ==> Node(st.blocks, o, h.lists[o], 0);
    }
    RepresentsSane(st, h, max);
  }

  /** A heap that last-in first-out frees lead back from. */
  ghost predicate Undoable(st: State, h: Heap, max: nat) {
    WellFormed(st, h, max) && BuddiesLive(h, max)
  }

  /** kfree(kmalloc(n)) restores every list head, every order and every other field,
      whether or not the request was served. */
  lemma KfreeUndoesKmalloc(st: State, h: Heap, max: nat, start: nat, size: nat)
    requires Undoable(st, h, max) && size >= 1 && start > 0
    ensures var (after, address) := Kmalloc(st, max, start, size);
            && Kfree(after, max, start, address) == st
            && exists g :: Undoable(after, g, max)
  {
    KmallocRefines(st, h, max, start, size);
    var (after, address) := Kmalloc(st, max, start, size);
    var order := CeilLog2(RequestedBlocks(size));
    if size > BLOCK_SIZE * Pow2(max) || Allocate(h, order).None? {
      assert Undoable(after, h, max);
    } else {
      var (g, page) := Allocate(h, order).value;
      ReleaseUndoesAllocate(h, Units(0, max), max, order);
      KfreeRefines(after, g, max, start, address, page);
      RepresentsUnique(st, Kfree(after, max, start, address), h, max);
      assert Undoable(after, g, max);
    }
  }

  datatype Call = Request(size: nat) | FreeLast

  /** Run calls; `stack` holds the addresses not freed yet, latest last. */
  function Run(st: State, max: nat, start: nat, stack: seq<nat>, calls: seq<Call>): (State, seq<nat>)
    requires Sane(st, max)
    requires forall i :: 0 <= i < |calls| && calls[i].Request? ==> calls[i].size >= 1
    decreases |calls|
  {
    if calls == [] then (st, stack)
    else match calls[0]
      case Request(size) =>
        var (after, address) := Kmalloc(st, max, start, size);
        Run(after, max, start, stack + [address], calls[1..])
      case FreeLast =>
        if stack == [] then Run(st, max, start, stack, calls[1..])
        else Run(Kfree(st, max, start, stack[|stack| - 1]), max, start, stack[..|stack| - 1], calls[1..])
  }

  /** The requests not freed yet, after one more call. */
  function Kept(kept: seq<nat>, call: Call): seq<nat> {
    match call
    case Request(size) => kept + [size]
    case FreeLast => if kept == [] then [] else kept[..|kept| - 1]
  }

  /** The requests of a run that are never freed in it. */
  function Survivors(kept: seq<nat>, calls: seq<Call>): seq<nat>
    decreases |calls|
  {
    if calls == [] then kept else Survivors(Kept(kept, calls[0]), calls[1..])
  }

  /** Serving `sizes` from the initial heap, one after the other. */
  function ServeAll(max: nat, start: nat, sizes: seq<nat>): (r: (State, seq<nat>))
    requires forall i :: 0 <= i < |sizes| ==> sizes[i] >= 1
    ensures Sane(r.0, max) && |r.1| == |sizes|
  {
    if sizes == [] then
      InitialWellFormed(max);
      (Initial(max), [])
    else
      var (st, stack) := ServeAll(max, start, sizes[..|sizes| - 1]);
      var (after, address) := Kmalloc(st, max, start, sizes[|sizes| - 1]);
      (after, stack + [address])
  }

  lemma ServeMore(max: nat, start: nat, sizes: seq<nat>, size: nat)
    requires size >= 1 && forall i :: 0 <= i < |sizes| ==> sizes[i] >= 1
    ensures var (st, stack) := ServeAll(max, start, sizes);
            var (after, address) := Kmalloc(st, max, start, size);
            ServeAll(max, start, sizes + [size]) == (after, stack + [address])
  {
  }

  lemma {:induction false} ServeNested(max: nat, start: nat, sizes: seq<nat>) returns (h: Heap)
    requires start > 0 && forall i :: 0 <= i < |sizes| ==> sizes[i] >= 1
    ensures Undoable(ServeAll(max, start, sizes).0, h, max)
  {
    if sizes == [] {
      InitialWellFormed(max);
      h := InitialHeap(max);
    } else {
      var before, size := sizes[..|sizes| - 1], sizes[|sizes| - 1];
      h := ServeNested(max, start, before);
      KfreeUndoesKmalloc(ServeAll(max, start, before).0, h, max, start, size);
      ServeMore(max, start, before, size);
      assert before + [size] == sizes;
      h :| Undoable(ServeAll(max, start, sizes).0, h, max);
    }
  }

  lemma FreeLastUndoes(max: nat, start: nat, sizes: seq<nat>, size: nat)
    requires start > 0 && size >= 1 && forall i :: 0 <= i < |sizes| ==> sizes[i] >= 1
    ensures var (st, stack) := ServeAll(max, start, sizes + [size]);
            && |stack| == |sizes| + 1
            && Kfree(st, max, start, stack[|sizes|]) == ServeAll(max, start, sizes).0
            && stack[..|sizes|] == ServeAll(max, start, sizes).1
  {
    ServeMore(max, start, sizes, size);
    var h := ServeNested(max, start, sizes);
    KfreeUndoesKmalloc(ServeAll(max, start, sizes).0, h, max, start, size);
  }

  /** One call after having served `kept`. */
  lemma LifoStep(max: nat, start: nat, kept: seq<nat>, calls: seq<Call>)
    requires start > 0 && calls != []
    requires forall i :: 0 <= i < |kept| ==> kept[i] >= 1
    requires forall i :: 0 <= i < |calls| && calls[i].Request? ==> calls[i].size >= 1
    ensures var more := Kept(kept, calls[0]);
            && (forall i :: 0 <= i < |more| ==> more[i] >= 1)
            && Run(ServeAll(max, start, kept).0, max, start, ServeAll(max, start, kept).1, calls) ==
               Run(ServeAll(max, start, more).0, max, start, ServeAll(max, start, more).1, calls[1..])
  {
    match calls[0]
    case Request(size) => ServeMore(max, start, kept, size);
    case FreeLast =>
      if kept != [] {
        var before := kept[..|kept| - 1];
        assert before + [kept[|kept| - 1]] == kept;
        FreeLastUndoes(max, start, before, kept[|kept| - 1]);
      }
  }

  /** Freeing in last-in first-out order leaves no trace: after any such run the heap is,
      in every field, what serving the requests never freed would have made it. */
  lemma {:induction false} LifoLeavesNoTrace(max: nat, start: nat, kept: seq<nat>, calls: seq<Call>)
    requires start > 0
    requires forall i :: 0 <= i < |kept| ==> kept[i] >= 1
    requires forall i :: 0 <= i < |calls| && calls[i].Request? ==> calls[i].size >= 1
    ensures forall i :: 0 <= i < |Survivors(kept, calls)| ==> Survivors(kept, calls)[i] >= 1
    ensures Run(ServeAll(max, start, kept).0, max, start, ServeAll(max, start, kept).1, calls) ==
            ServeAll(max, start, Survivors(kept, calls))
    decreases |calls|
  {
    if calls != [] {
      LifoStep(max, start, kept, calls);
      LifoLeavesNoTrace(max, start, Kept(kept, calls[0]), calls[1..]);
    }
  }
}
