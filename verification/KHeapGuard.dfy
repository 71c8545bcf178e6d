/** When kfree is right. It takes "the buddy's first block is not allocated" for "the buddy
    is a free block of this order at the head of its list"; this module proves that the
    heap survives a kfree exactly when that holds at every merge. */
module KHeapGuard {
  import opened Util
  import opened Buddy
  import opened BuddyRuns
  import opened KHeap
  import opened KHeapProofs

  /** What a caller can read off the arrays before kfree: each buddy to be absorbed is
      either not free (the merge stops) or the front of the list of its order. */
  predicate CanMerge(st: State, max: nat, id: nat, o: nat)
    requires Sane(st, max) && o <= max && id < |st.blocks|
    decreases max - o
  {
    o == max ||
    (FlipBelow(id, o, max);
     st.blocks[Flip(id, o)].isAllocated ||
     (st.heads[o] == At(Flip(id, o)) && CanMerge(st, max, Parent(id, o), o + 1)))
  }

  lemma {:induction false} CanMergeIsGuard(st: State, h: Heap, max: nat, freed: nat, id: nat, o: nat)
    requires Sane(st, max) && Represents(st, h, max) && o <= max && id < |st.blocks| && Aligned(id, o)
    requires Within(freed, id, o)
    ensures CanMerge(st, max, id, o) <==> MergeGuard(h.lists, h.live - {freed}, id, o, max)
    decreases max - o
  {
    if o < max {
      var buddy := Flip(id, o);
      FlipBelow(id, o, max);
      ParentProperties(id, o);
      assert buddy != freed;
      assert Stack(st, o, h.lists[o]);
      assert st.blocks[buddy].isAllocated <==> buddy in h.live by {
        if InSomeList(h.lists, buddy) {
          var q: nat :| Listed(h.lists, buddy, q);
          var _ := ListedNode(st, h, max, buddy, q);
        }
      }
      CanMergeIsGuard(st, h, max, freed, Parent(id, o), o + 1);
    }
  }

  // ---------------------------------------------------------------- what the merge loop absorbs

  /** The block the merge loop ends with: it climbs while the buddy is not live. */
  function MergeTop(live: map<nat, nat>, id: nat, o: nat, max: nat): (nat, nat)
    requires o <= max
    decreases max - o
  {
    if o == max || Flip(id, o) in live then (id, o) else MergeTop(live, Parent(id, o), o + 1, max)
  }

  lemma {:induction false} MergeTopContains(live: map<nat, nat>, id: nat, o: nat, max: nat)
    requires o <= max && Aligned(id, o)
    ensures var (t, q) := MergeTop(live, id, o, max);
            o <= q <= max && Aligned(t, q) && t <= id && id + Pow2(o) <= t + Pow2(q)
    decreases max - o
  {
    if o < max && Flip(id, o) !in live {
      ParentProperties(id, o);
      MergeTopContains(live, Parent(id, o), o + 1, max);
    }
  }

  ghost predicate Flags(st: State, live: map<nat, nat>) {
    forall i: nat :: i < |st.blocks| ==> (st.blocks[i].isAllocated <==> i in live)
  }

  lemma AddFlags(st: State, live: map<nat, nat>, max: nat, o: nat, id: nat)
    requires Sane(st, max) && o <= max && id < |st.blocks| && Flags(st, live) && id !in live
    ensures Flags(Add(st, max, o, id), live)
  {
  }

  lemma DeleteFlags(st: State, live: map<nat, nat>, max: nat, o: nat, id: nat)
    requires Sane(st, max) && o <= max && id < |st.blocks| && Flags(st, live) && id !in live
    ensures Flags(Delete(st, max, o, id), live)
  {
  }

  lemma AbsorbKeeps(st: State, live: map<nat, nat>, max: nat, id: nat, o: nat, up: nat)
    requires Sane(st, max) && o < max && up == o + 1 && id < |st.blocks| && Flags(st, live)
    requires id !in live && Flip(id, o) !in live
    ensures Parent(id, o) < |st.blocks| && Parent(id, o) !in live
    ensures Flags(Absorb(st, max, id, o), live)
  {
    AbsorbIs(st, max, id, o, up);
    var one := Delete(st, max, o, id);
    DeleteFlags(st, live, max, o, id);
    DeleteFlags(one, live, max, o, Flip(id, o));
    AddFlags(Delete(one, max, o, Flip(id, o)), live, max, up, Parent(id, o));
  }

  lemma AbsorbPushes(st: State, max: nat, id: nat, o: nat, up: nat)
    requires Sane(st, max) && o < max && up == o + 1 && id < |st.blocks|
    ensures Absorb(st, max, id, o).heads[up] == At(Parent(id, o))
  {
  }

  lemma AbsorbUnreferenced(st: State, max: nat, id: nat, o: nat, up: nat, x: nat)
    requires Sane(st, max) && o < max && up == o + 1 && id < |st.blocks|
    requires Unreferenced(st, x) && Parent(id, o) != x
    ensures Unreferenced(Absorb(st, max, id, o), x)
  {
    AbsorbIs(st, max, id, o, up);
    var one := Delete(st, max, o, id);
    DeleteUnreferenced(st, max, o, id, x);
    DeleteUnreferenced(one, max, o, Flip(id, o), x);
    AddUnreferenced(Delete(one, max, o, Flip(id, o)), max, up, Parent(id, o), x);
  }

  lemma MergeTopUp(live: map<nat, nat>, id: nat, o: nat, up: nat, max: nat)
    requires o < max && up == o + 1 && Flip(id, o) !in live
    ensures MergeTop(live, id, o, max) == MergeTop(live, Parent(id, o), up, max)
  {
  }

  /** The loop always ends by pushing that block. */
  lemma {:induction false} MergeEndsAtTop(st: State, live: map<nat, nat>, max: nat, id: nat, o: nat)
    requires Sane(st, max) && o <= max && id < |st.blocks| && Flags(st, live) && id !in live
    requires st.heads[o] == At(id)
    ensures var (t, q) := MergeTop(live, id, o, max);
            q <= max && Merge(st, max, id, o).heads[q] == At(t)
    decreases max - o
  {
    if o < max {
      var up := o + 1;
      MergeStep(st, max, id, o, up);
      if Flip(id, o) !in live {
        AbsorbPushes(st, max, id, o, up);
        AbsorbKeeps(st, live, max, id, o, up);
        MergeTopUp(live, id, o, up, max);
        MergeEndsAtTop(Absorb(st, max, id, o), live, max, Parent(id, o), up);
      }
    }
  }

  /** If the block reached is free, everything absorbed on the way was a maximal free run. */
  lemma AbsorbedIsMaximal(free: set<nat>, live: map<nat, nat>, max: nat, first: nat, size: nat, id: nat, o: nat)
    requires o < max && Aligned(id, o) && Flip(id, o) !in live
    requires id <= first && first + Pow2(size) <= id + Pow2(o) && first !in free
    requires var (t, q) := MergeTop(live, id, o, max); WhollyFree(free + Units(first, size), t, q)
    ensures Maximal(free, max, Flip(id, o), o)
  {
    var buddy, parent := Flip(id, o), Parent(id, o);
    ParentProperties(id, o);
    MergeTopContains(live, parent, o + 1, max);
    var (t, q) := MergeTop(live, id, o, max);
    forall p: nat | Within(p, buddy, o) ensures p in free {
      assert Within(p, t, q);
      assert !Within(p, first, size);
    }
    assert Within(first, parent, o + 1);
  }

  // ---------------------------------------------------------------- a block nothing points at

  ghost predicate Unreferenced(st: State, x: nat) {
    && (forall o :: 0 <= o < |st.heads| ==> st.heads[o] != At(x))
    && (forall i :: 0 <= i < |st.blocks| ==> st.blocks[i].next != At(x))
  }

  lemma ListedIsReferenced(st: State, h: Heap, max: nat, x: nat, o: nat)
    requires Represents(st, h, max) && Listed(h.lists, x, o)
    ensures !Unreferenced(st, x)
  {
    var k := ListedNode(st, h, max, x, o);
    var l := h.lists[o];
    assert Stack(st, o, l);
    if k > 0 {
      assert Node(st.blocks, o, l, k - 1);
      assert st.blocks[l[k - 1]].next == At(x);
    }
  }

  lemma AddUnreferenced(st: State, max: nat, o: nat, id: nat, x: nat)
    requires Sane(st, max) && o <= max && id < |st.blocks| && id != x && Unreferenced(st, x)
    ensures Unreferenced(Add(st, max, o, id), x)
  {
  }

  lemma DeleteUnreferenced(st: State, max: nat, o: nat, id: nat, x: nat)
    requires Sane(st, max) && o <= max && id < |st.blocks| && Unreferenced(st, x)
    ensures Unreferenced(Delete(st, max, o, id), x)
  {
  }

  /** The block x is none of those the loop pushes from (id, o) on. */
  predicate Avoids(live: map<nat, nat>, id: nat, o: nat, max: nat, x: nat)
    requires o <= max
    decreases max - o
  {
    id != x && (o < max && Flip(id, o) !in live ==> Avoids(live, Parent(id, o), o + 1, max, x))
  }

  lemma AvoidsUp(live: map<nat, nat>, id: nat, o: nat, up: nat, max: nat, x: nat)
    requires o < max && up == o + 1 && Flip(id, o) !in live && Avoids(live, id, o, max, x)
    ensures Avoids(live, Parent(id, o), up, max, x) && Parent(id, o) != x
  {
  }

  lemma {:induction false} MergeUnreferenced(st: State, live: map<nat, nat>, max: nat, id: nat, o: nat, x: nat)
    requires Sane(st, max) && o <= max && id < |st.blocks| && Flags(st, live) && id !in live
    requires Unreferenced(st, x) && Avoids(live, id, o, max, x)
    ensures Unreferenced(Merge(st, max, id, o), x)
    decreases max - o
  {
    if o < max {
      var up := o + 1;
      MergeStep(st, max, id, o, up);
      if Flip(id, o) !in live {
        AvoidsUp(live, id, o, up, max, x);
        AbsorbUnreferenced(st, max, id, o, up, x);
        AbsorbKeeps(st, live, max, id, o, up);
        MergeUnreferenced(Absorb(st, max, id, o), live, max, Parent(id, o), up, x);
      }
    }
  }

  /** Deleting a block that is not the front leaves the front unreferenced: it is lost. */
  lemma DeleteLosesFront(st: State, h: Heap, max: nat, o: nat, id: nat)
    requires Represents(st, h, max) && Sane(st, max) && o <= max && Listed(h.lists, id, o) && h.lists[o][0] != id
    ensures id < |st.blocks| && Unreferenced(Delete(st, max, o, id), h.lists[o][0])
  {
    var l := h.lists[o];
    var x := l[0];
    var k := ListedNode(st, h, max, id, o);
    assert Stack(st, o, l);
    assert k + 1 < |l| ==> l[k + 1] != x;
    assert Listed(h.lists, x, o);
    forall q: nat | q <= max && q != o ensures st.heads[q] != At(x) {
      assert Stack(st, q, h.lists[q]);
      if st.heads[q] == At(x) {
        assert Listed(h.lists, x, q);
        ListedOnce(st, h, max, x, o, q);
      }
    }
    forall i: nat | i < |st.blocks| ensures st.blocks[i].next != At(x) {
      if InSomeList(h.lists, i) {
        var q: nat :| Listed(h.lists, i, q);
        var j := ListedNode(st, h, max, i, q);
        var m := h.lists[q];
        assert Stack(st, q, m);
        if j + 1 < |m| && m[j + 1] == x {
          assert Listed(h.lists, x, q);
          ListedOnce(st, h, max, x, o, q);
        }
      }
    }
  }

  // ---------------------------------------------------------------- the guard is necessary

  /** Free blocks as before, plus the block (first, size) being freed. */
  ghost predicate Freeing(free: set<nat>, first: nat, size: nat, id: nat, o: nat) {
    id <= first && first + Pow2(size) <= id + Pow2(o) && first !in free
  }

  lemma {:induction false} OutsiderAvoided(free: set<nat>, live: map<nat, nat>, max: nat, first: nat, size: nat,
                                           id: nat, o: nat, x: nat, q: nat)
    requires o <= max && Aligned(id, o) && Freeing(free, first, size, id, o)
    requires var (t, top) := MergeTop(live, id, o, max); WhollyFree(free + Units(first, size), t, top)
    requires Maximal(free, max, x, q) && (q < o || (q == o && (o < max ==> x != Flip(id, o)))) && !Within(x, id, o)
    ensures Avoids(live, id, o, max, x)
    decreases max - o
  {
    if o < max && Flip(id, o) !in live {
      var buddy := Flip(id, o);
      ParentProperties(id, o);
      AbsorbedIsMaximal(free, live, max, first, size, id, o);
      MaximalDisjoint(free, max, x, q, buddy, o);
      OutsiderAvoided(free, live, max, first, size, Parent(id, o), o + 1, x, q);
    }
  }

  /** A free block other than the buddy stays a maximal run when (first, size) is freed. */
  lemma OutsiderStaysMaximal(free: set<nat>, max: nat, first: nat, size: nat, id: nat, o: nat, x: nat)
    requires o < max && Aligned(id, o) && Freeing(free, first, size, id, o)
    requires Maximal(free, max, x, o) && x != Flip(id, o)
    ensures Maximal(free + Units(first, size), max, x, o)
  {
    var all, y := free + Units(first, size), Flip(x, o);
    ParentProperties(x, o);
    ParentProperties(id, o);
    assert Disjoint(y, o, id, o) by {
      assert y != id;
      if !Disjoint(y, o, id, o) {
        SameOrderSame(y, id, o, if y <= id then id else y);
        assert false;
      }
    }
    assert WhollyFree(all, y, o) ==> WhollyFree(free, y, o) by {
      assert forall p: nat :: Within(p, y, o) ==> !Within(p, first, size);
    }
    BothHalvesFree(free, x, o);
    BothHalvesFree(all, x, o);
  }

  /** In a heap that came out right, every buddy absorbed was the front of its list: had it
      stood further back, the front would now be listed nowhere. */
  lemma {:induction false} GuardForced(st: State, lists: Lists, free: set<nat>, live: map<nat, nat>, max: nat,
                                       first: nat, size: nat, id: nat, o: nat, final: State, g: Heap)
    requires |lists| == max + 1 && o <= max && id !in live && !InSomeList(lists, id) && id < Pow2(max)
    requires Sane(st, max) && Represents(st, Pushed(lists, live, id, o), max)
    requires MaximalFrom(lists, free, max, o)
    requires Aligned(id, o) && Freeing(free, first, size, id, o)
    requires final == Merge(st, max, id, o)
    requires Represents(final, g, max) && Canonical(g.lists, free + Units(first, size), max)
    ensures MergeGuard(lists, live, id, o, max)
    decreases max - o
  {
    if o < max && Flip(id, o) !in live {
      var up := o + 1;
      BuddyIsListed(st, lists, free, live, max, first, size, id, o, final, g);
      if lists[o][0] == Flip(id, o) {
        FreeingUp(free, first, size, id, o, up);
        MergeStep(st, max, id, o, up);
        AbsorbRefines(st, lists, live, max, id, o, up);
        var tail, lower := lists[o := lists[o][1..]], Parent(id, o);
        assert MaximalFrom(tail, free, max, up);
        assert final == Merge(Absorb(st, max, id, o), max, lower, up);
        GuardForced(Absorb(st, max, id, o), tail, free, live, max, first, size, lower, up, final, g);
        GuardAbove(lists, tail, live, lower, up, max);
        GuardStep(lists, live, id, o, up, max);
      } else {
        FrontLost(st, lists, free, live, max, first, size, id, o, up, final, g);
      }
    }
  }

  lemma FreeingUp(free: set<nat>, first: nat, size: nat, id: nat, o: nat, up: nat)
    requires Aligned(id, o) && up == o + 1 && Freeing(free, first, size, id, o)
    ensures Aligned(Parent(id, o), up) && Freeing(free, first, size, Parent(id, o), up)
  {
    ParentProperties(id, o);
  }

  lemma GuardStep(lists: Lists, live: map<nat, nat>, id: nat, o: nat, up: nat, max: nat)
    requires |lists| == max + 1 && o < max && up == o + 1
    requires lists[o] != [] && lists[o][0] == Flip(id, o) && MergeGuard(lists, live, Parent(id, o), up, max)
    ensures MergeGuard(lists, live, id, o, max)
  {
  }

  /** From order o up the lists hold the maximal free runs. */
  ghost predicate MaximalFrom(lists: Lists, free: set<nat>, max: nat, o: nat)
    requires |lists| == max + 1
  {
    forall k: nat, s: nat :: o <= k <= max ==> (s in lists[k] <==> Maximal(free, max, s, k))
  }

  lemma RepresentsFlags(st: State, h: Heap, max: nat)
    requires Represents(st, h, max)
    ensures Flags(st, h.live)
  {
    forall i: nat | i < |st.blocks| ensures st.blocks[i].isAllocated <==> i in h.live {
      if InSomeList(h.lists, i) {
        var q: nat :| Listed(h.lists, i, q);
        var _ := ListedNode(st, h, max, i, q);
      }
    }
  }

  /** What a well-formed heap means: a block carries the allocated mark exactly when a live
      range begins there, live ranges lie inside the heap and apart from each other, and no
      block has a `prev`. */
  lemma WellFormedMeans(st: State, h: Heap, max: nat)
    requires WellFormed(st, h, max)
    ensures forall i: nat :: i < |st.blocks| ==> (st.blocks[i].isAllocated <==> i in h.live)
    ensures forall i: nat :: i in h.live ==> st.blocks[i].order == h.live[i] && i + Pow2(h.live[i]) <= Pow2(max)
    ensures forall i, j :: i in h.live && j in h.live && i != j ==> Disjoint(i, h.live[i], j, h.live[j])
    ensures forall i :: 0 <= i < |st.blocks| ==> st.blocks[i].prev == Null
  {
    RepresentsFlags(st, h, max);
    forall i: nat | i in h.live ensures i + Pow2(h.live[i]) <= Pow2(max) {
      assert Within(i + Pow2(h.live[i]) - 1, i, h.live[i]);
    }
    forall i: nat | i < |st.blocks| ensures st.blocks[i].prev == Null {
      if InSomeList(h.lists, i) {
        var o: nat :| Listed(h.lists, i, o);
        var _ := ListedNode(st, h, max, i, o);
      }
    }
  }

  /** kmalloc returns 0 and leaves the heap alone exactly when the size exceeds the heap or
      no naturally aligned run of the size is free; otherwise it returns such a run, at
      least `size` and less than 2 * size bytes long unless that is under a block. */
  lemma KmallocCorrect(st: State, h: Heap, max: nat, start: nat, size: nat) returns (g: Heap, id: nat)
    requires WellFormed(st, h, max) && size >= 1 && start > 0
    ensures WellFormed(Kmalloc(st, max, start, size).0, g, max)
    ensures var (after, address), r := Kmalloc(st, max, start, size), CeilLog2(RequestedBlocks(size));
            var free := FreeUnits(Units(0, max), h.live);
            && (address == 0 <==>
                  size > BLOCK_SIZE * Pow2(max) || forall s: nat :: Aligned(s, r) ==> !WhollyFree(free, s, r))
            && (address == 0 ==> after == st && g == h)
            && (address != 0 ==>
                  && address == start + BLOCK_SIZE * id && Aligned(id, r) && WhollyFree(free, id, r)
                  && size <= BLOCK_SIZE * Pow2(r) && (BLOCK_SIZE * Pow2(r) < 2 * size || r == 0)
                  && id !in h.live && g.live == h.live[id := r])
  {
    g, id := h, 0;
    KmallocRefines(st, h, max, start, size);
    if size <= BLOCK_SIZE * Pow2(max) {
      var n := RequestedBlocks(size);
      var r := CeilLog2(n);
      OrderFits(size, max);
      AllocateCorrect(h, Units(0, max), max, r);
      if Allocate(h, r).Some? {
        g, id := Allocate(h, r).value.0, Allocate(h, r).value.1;
      }
    }
  }

  lemma TopIsFree(st: State, lists: Lists, live: map<nat, nat>, max: nat, id: nat, o: nat, all: set<nat>,
                  final: State, g: Heap)
    requires |lists| == max + 1 && o <= max && id !in live && id < Pow2(max)
    requires Sane(st, max) && Represents(st, Pushed(lists, live, id, o), max)
    requires final == Merge(st, max, id, o) && Represents(final, g, max) && Canonical(g.lists, all, max)
    ensures Flags(st, live)
    ensures var (t, q) := MergeTop(live, id, o, max); WhollyFree(all, t, q)
  {
    RepresentsFlags(st, Pushed(lists, live, id, o), max);
    assert Stack(st, o, Pushed(lists, live, id, o).lists[o]);
    MergeEndsAtTop(st, live, max, id, o);
    var (t, q) := MergeTop(live, id, o, max);
    assert Stack(final, q, g.lists[q]);
    assert g.lists[q][0] == t;
    assert Listed(g.lists, t, q);
  }

  lemma BuddyIsListed(st: State, lists: Lists, free: set<nat>, live: map<nat, nat>, max: nat,
                      first: nat, size: nat, id: nat, o: nat, final: State, g: Heap)
    requires |lists| == max + 1 && o < max && id !in live && id < Pow2(max)
    requires Sane(st, max) && Represents(st, Pushed(lists, live, id, o), max)
    requires MaximalFrom(lists, free, max, o)
    requires Aligned(id, o) && Freeing(free, first, size, id, o) && Flip(id, o) !in live
    requires final == Merge(st, max, id, o)
    requires Represents(final, g, max) && Canonical(g.lists, free + Units(first, size), max)
    ensures Flip(id, o) in lists[o]
  {
    TopIsFree(st, lists, live, max, id, o, free + Units(first, size), final, g);
    AbsorbedIsMaximal(free, live, max, first, size, id, o);
  }

  /** A merge that takes the buddy from behind the front of its list loses the front. */
  lemma FrontLost(st: State, lists: Lists, free: set<nat>, live: map<nat, nat>, max: nat,
                  first: nat, size: nat, id: nat, o: nat, up: nat, final: State, g: Heap)
    requires |lists| == max + 1 && o < max && up == o + 1 && id !in live && !InSomeList(lists, id) && id < Pow2(max)
    requires Sane(st, max) && Represents(st, Pushed(lists, live, id, o), max)
    requires MaximalFrom(lists, free, max, o)
    requires Aligned(id, o) && Freeing(free, first, size, id, o)
    requires Flip(id, o) !in live && Flip(id, o) in lists[o] && lists[o][0] != Flip(id, o)
    requires final == Merge(st, max, id, o)
    ensures !(Represents(final, g, max) && Canonical(g.lists, free + Units(first, size), max))
  {
    var x := lists[o][0];
    if Represents(final, g, max) && Canonical(g.lists, free + Units(first, size), max) {
      FrontUnreferenced(st, lists, free, live, max, first, size, id, o, up, final, g);
      assert Listed(g.lists, x, o);
      ListedIsReferenced(final, g, max, x, o);
    }
  }

  /** In a heap that came out right that front, a maximal free run, would be pointed at by nobody. */
  lemma FrontUnreferenced(st: State, lists: Lists, free: set<nat>, live: map<nat, nat>, max: nat,
                          first: nat, size: nat, id: nat, o: nat, up: nat, final: State, g: Heap)
    requires |lists| == max + 1 && o < max && up == o + 1 && id !in live && !InSomeList(lists, id) && id < Pow2(max)
    requires Sane(st, max) && Represents(st, Pushed(lists, live, id, o), max)
    requires MaximalFrom(lists, free, max, o)
    requires Aligned(id, o) && Freeing(free, first, size, id, o)
    requires Flip(id, o) !in live && Flip(id, o) in lists[o] && lists[o][0] != Flip(id, o)
    requires final == Merge(st, max, id, o)
    requires Represents(final, g, max) && Canonical(g.lists, free + Units(first, size), max)
    ensures Maximal(free + Units(first, size), max, lists[o][0], o) && Unreferenced(final, lists[o][0])
  {
    var x, all := lists[o][0], free + Units(first, size);
    MergeStep(st, max, id, o, up);
    assert x in lists[o] && Listed(lists, x, o);
    OutsiderStaysMaximal(free, max, first, size, id, o, x);
    TopIsFree(st, lists, live, max, id, o, all, final, g);
    FrontAvoided(free, live, max, first, size, id, o, up, x);
    AbsorbLosesFront(st, lists, live, max, id, o, up);
    AbsorbKeeps(st, live, max, id, o, up);
    MergeUnreferenced(Absorb(st, max, id, o), live, max, Parent(id, o), up, x);
  }

  /** The merge goes on without pushing a free block that is not the buddy. */
  lemma FrontAvoided(free: set<nat>, live: map<nat, nat>, max: nat, first: nat, size: nat, id: nat, o: nat, up: nat,
                     x: nat)
    requires o < max && up == o + 1 && Aligned(id, o) && Freeing(free, first, size, id, o) && Flip(id, o) !in live
    requires Maximal(free, max, x, o) && x != Flip(id, o) && x != id
    requires var (t, q) := MergeTop(live, id, o, max); WhollyFree(free + Units(first, size), t, q)
    ensures Parent(id, o) != x && Avoids(live, Parent(id, o), up, max, x)
  {
    ParentProperties(id, o);
    FrontOutside(free, max, id, o, x);
    AbsorbedIsMaximal(free, live, max, first, size, id, o);
    MaximalDisjoint(free, max, x, o, Flip(id, o), o);
    MergeTopUp(live, id, o, up, max);
    OutsiderAvoided(free, live, max, first, size, Parent(id, o), up, x, o);
  }

  lemma FrontOutside(free: set<nat>, max: nat, id: nat, o: nat, x: nat)
    requires Aligned(id, o) && Maximal(free, max, x, o) && x != id
    ensures !Within(x, id, o)
  {
    if Within(x, id, o) {
      SameOrderSame(x, id, o, x);
      assert false;
    }
  }

  lemma AbsorbLosesFront(st: State, lists: Lists, live: map<nat, nat>, max: nat, id: nat, o: nat, up: nat)
    requires |lists| == max + 1 && o < max && up == o + 1 && !InSomeList(lists, id) && id < Pow2(max)
    requires Sane(st, max) && Represents(st, Pushed(lists, live, id, o), max)
    requires Flip(id, o) in lists[o] && lists[o][0] != Flip(id, o) && Parent(id, o) != lists[o][0]
    ensures Unreferenced(Absorb(st, max, id, o), lists[o][0])
  {
    var x, buddy, h := lists[o][0], Flip(id, o), Pushed(lists, live, id, o);
    MergeStep(st, max, id, o, up);
    assert h.lists[o][0] == id;
    RepresentsDelete(st, h, max, o);
    assert h.lists[o][1..] == lists[o];
    assert h.lists[o := lists[o]] == lists;
    assert h.(lists := h.lists[o := h.lists[o][1..]]) == Heap(lists, live);
    var one := Delete(st, max, o, id);
    assert Listed(lists, buddy, o);
    DeleteLosesFront(one, Heap(lists, live), max, o, buddy);
    AddUnreferenced(Delete(one, max, o, buddy), max, up, Parent(id, o), x);
  }

  // ---------------------------------------------------------------- the result

  /** kfree of a live block leaves a well-formed heap with just that block released exactly
      when every buddy the merge loop meets is not free or fronts the list of its order. */
  lemma KfreeKeepsHeapIff(st: State, h: Heap, max: nat, start: nat, address: nat, id: nat)
    requires address == start + BLOCK_SIZE * id
    requires WellFormed(st, h, max) && id in h.live
    ensures id < |st.blocks| && st.blocks[id].order <= max
    ensures CanMerge(st, max, id, st.blocks[id].order) <==>
              exists g :: WellFormed(Kfree(st, max, start, address), g, max) && g.live == h.live - {id}
  {
    var o, live, usable := h.live[id], h.live - {id}, Units(0, max);
    var free, after := FreeUnits(usable, h.live), Kfree(st, max, start, address);
    KfreeIsMerge(st, h, max, start, address, id);
    LiveNotListed(h, usable, max, id);
    assert Within(id, id, o);
    CanMergeIsGuard(st, h, max, id, id, o);
    if MergeGuard(h.lists, live, id, o, max) {
      KfreeRefines(st, h, max, start, address, id);
      assert WellFormed(after, Release(h, id, max), max);
    }
    if exists g :: WellFormed(after, g, max) && g.live == live {
      var g :| WellFormed(after, g, max) && g.live == live;
      FreeAfterRemove(usable, h.live, max, id);
      RepresentsAdd(st, h, max, o, id);
      assert Represents(Add(st, max, o, id), Pushed(h.lists, live, id, o), max);
      assert id in Units(id, o);
      forall k: nat, s: nat | o <= k <= max ensures s in h.lists[k] <==> Maximal(free, max, s, k) {
        assert Listed(h.lists, s, k) <==> s in h.lists[k];
      }
      GuardForced(Add(st, max, o, id), h.lists, free, live, max, id, o, id, o, after, g);
    }
  }

  // ---------------------------------------------------------------- runs

  datatype Op = Malloc(size: nat) | Free(address: nat)

  ghost predicate Sensible(ops: seq<Op>) {
    forall i :: 0 <= i < |ops| && ops[i].Malloc? ==> ops[i].size >= 1
  }

  function Do(st: State, max: nat, start: nat, op: Op): (r: State)
    requires Sane(st, max) && (op.Malloc? ==> op.size >= 1)
    ensures Sane(r, max)
  {
    match op
    case Malloc(size) => Kmalloc(st, max, start, size).0
    case Free(address) => Kfree(st, max, start, address)
  }

  function DoAll(st: State, max: nat, start: nat, ops: seq<Op>): (r: State)
    requires Sane(st, max) && forall i :: 0 <= i < |ops| && ops[i].Malloc? ==> ops[i].size >= 1
    ensures Sane(r, max)
    decreases |ops|
  {
    if ops == [] then st else DoAll(Do(st, max, start, ops[0]), max, start, ops[1..])
  }

  /** kfree ignores the address, or frees a block whose buddies meet the guard. */
  predicate Guarded(st: State, max: nat, start: nat, address: nat)
    requires Sane(st, max)
  {
    start <= address < start + BLOCK_SIZE * Pow2(max) ==>
      var id := (address - start) / BLOCK_SIZE;
      st.blocks[id].isAllocated ==> CanMerge(st, max, id, st.blocks[id].order)
  }

  predicate AllGuarded(st: State, max: nat, start: nat, ops: seq<Op>)
    requires Sane(st, max) && forall i :: 0 <= i < |ops| && ops[i].Malloc? ==> ops[i].size >= 1
    decreases |ops|
  {
    ops == [] ||
    ((ops[0].Free? ==> Guarded(st, max, start, ops[0].address)) &&
     AllGuarded(Do(st, max, start, ops[0]), max, start, ops[1..]))
  }

  lemma SameBlock(st: State, max: nat, start: nat, address: nat, whole: nat)
    requires Sane(st, max) && start <= address < start + BLOCK_SIZE * Pow2(max)
    requires whole == start + BLOCK_SIZE * ((address - start) / BLOCK_SIZE)
    ensures Kfree(st, max, start, address) == Kfree(st, max, start, whole)
  {
    assert (whole - start) / BLOCK_SIZE == (address - start) / BLOCK_SIZE;
  }

  /** The address lies in the 256 bytes of block id. */
  predicate Hits(start: nat, address: nat, id: nat) {
    start + 256 * id <= address < start + 256 * (id + 1)
  }

  /** kfree of any address: it releases the live block whose first unit holds the address, and
      does nothing if there is none. */
  lemma KfreeKeepsWellFormed(st: State, h: Heap, max: nat, start: nat, address: nat) returns (g: Heap)
    requires WellFormed(st, h, max) && Guarded(st, max, start, address)
    ensures WellFormed(Kfree(st, max, start, address), g, max)
    ensures forall id: nat :: id in h.live && Hits(start, address, id) ==> g.live == h.live - {id}
    ensures (forall id: nat :: id in h.live ==> !Hits(start, address, id)) ==>
              g == h && Kfree(st, max, start, address) == st
  {
    g := h;
    RepresentsFlags(st, h, max);
    if start <= address {
      var id := (address - start) / BLOCK_SIZE;
      if id in h.live {
        var whole := start + BLOCK_SIZE * id;
        KfreeKeepsHeapIff(st, h, max, start, whole, id);
        SameBlock(st, max, start, address, whole);
        g :| WellFormed(Kfree(st, max, start, whole), g, max) && g.live == h.live - {id};
      }
    }
  }

  lemma DoKeepsWellFormed(st: State, h: Heap, max: nat, start: nat, op: Op) returns (g: Heap)
    requires WellFormed(st, h, max)
    requires match op case Malloc(size) => size >= 1 case Free(address) => Guarded(st, max, start, address)
    ensures WellFormed(Do(st, max, start, op), g, max)
  {
    match op
    case Malloc(size) =>
      KmallocRefines(st, h, max, start, size);
      g := if size <= BLOCK_SIZE * Pow2(max) then Allocated(h, CeilLog2(RequestedBlocks(size))) else h;
    case Free(address) =>
      g := KfreeKeepsWellFormed(st, h, max, start, address);
  }

  /** Every run whose frees meet the guard keeps free and live blocks partitioning the heap
      canonically, and once nothing is live the heap is, field by field, what kHeapInit made. */
  lemma {:induction false} GuardedRuns(st: State, h: Heap, max: nat, start: nat, ops: seq<Op>)
    requires WellFormed(st, h, max) && Sensible(ops) && AllGuarded(st, max, start, ops)
    ensures exists g :: WellFormed(DoAll(st, max, start, ops), g, max)
    ensures (forall i :: 0 <= i < Pow2(max) ==> !DoAll(st, max, start, ops).blocks[i].isAllocated) ==>
              DoAll(st, max, start, ops) == Initial(max)
    decreases |ops|
  {
    if ops == [] {
      assert DoAll(st, max, start, ops) == st;
      assert WellFormed(DoAll(st, max, start, ops), h, max);
      NothingLive(st, h, max);
    } else {
      var next, rest := Do(st, max, start, ops[0]), ops[1..];
      var g := DoKeepsWellFormed(st, h, max, start, ops[0]);
      assert DoAll(st, max, start, ops) == DoAll(next, max, start, rest);
      GuardedRuns(next, g, max, start, rest);
    }
  }

  lemma NothingLive(st: State, h: Heap, max: nat)
    requires WellFormed(st, h, max)
    ensures (forall i :: 0 <= i < Pow2(max) ==> !st.blocks[i].isAllocated) ==> st == Initial(max)
  {
    if forall i :: 0 <= i < Pow2(max) ==> !st.blocks[i].isAllocated {
      assert h.live == map[] by {
        RepresentsFlags(st, h, max);
        assert forall s: nat :: s < |st.blocks| ==> s !in h.live;
      }
      AllFreeIsOneBlock(h, max);
      assert h == InitialHeap(max);
      InitialWellFormed(max);
      RepresentsUnique(st, Initial(max), h, max);
    }
  }

  // ---------------------------------------------------------------- a run that breaks the condition

  /** KHEAP_MAX_ORDER: the kernel's heap is 16 blocks. */
  const MAX_ORDER: nat := 4

  /** kmalloc(512), two kmalloc(256), and a kfree of the block the second one returned. */
  function Breaking(start: nat): seq<Op> {
    [Malloc(512), Malloc(256), Malloc(256), Free(start + 512)]
  }

  lemma FirstGrant()
    ensures Allocate(InitialHeap(4), 1) == Some((Heap([[], [2], [4], [8], []], map[0 := 1]), 0))
  {
    var l: Lists, e: Lists := [[], [], [], [], [0]], [[], [], [], [], []];
    assert InitialHeap(4) == Heap(l, map[]);
    assert FirstFit(l, 1) == 4 by { assert FirstFit(l, 3) == 4; }
    assert l[4][1..] == [] && l[4 := l[4][1..]] == e;
    var e3: Lists, e2: Lists := [[], [], [], [8], []], [[], [], [4], [8], []];
    assert [8] + e[3] == [8] && [4] + e3[2] == [4] && [2] + e2[1] == [2];
    assert e[3 := [8] + e[3]] == e3 && e3[2 := [4] + e3[2]] == e2 && e2[1 := [2] + e2[1]] == [[], [2], [4], [8], []];
    assert Pow2(1) == 2 && Pow2(2) == 4 && Pow2(3) == 8;
    assert Split(e2, 0, 2, 1) == [[], [2], [4], [8], []];
    assert Split(e3, 0, 3, 1) == [[], [2], [4], [8], []];
    assert Split(e, 0, 4, 1) == [[], [2], [4], [8], []];
  }

  lemma SecondGrant()
    ensures Allocate(Heap([[], [2], [4], [8], []], map[0 := 1]), 0) ==
            Some((Heap([[3], [], [4], [8], []], map[0 := 1, 2 := 0]), 2))
  {
    var l: Lists, e: Lists := [[], [2], [4], [8], []], [[], [], [4], [8], []];
    assert FirstFit(l, 0) == 1;
    assert l[1][1..] == [] && l[1 := l[1][1..]] == e;
    assert [3] + e[0] == [3];
    assert e[0 := [3] + e[0]] == [[3], [], [4], [8], []];
    assert Split(e, 2, 1, 0) == [[3], [], [4], [8], []];
    assert map[0 := 1][2 := 0] == map[0 := 1, 2 := 0];
  }

  lemma ThirdGrant()
    ensures Allocate(Heap([[3], [], [4], [8], []], map[0 := 1, 2 := 0]), 0) ==
            Some((Heap([[], [], [4], [8], []], map[0 := 1, 2 := 0, 3 := 0]), 3))
  {
    var l: Lists := [[3], [], [4], [8], []];
    assert FirstFit(l, 0) == 0;
    assert l[0][1..] == [] && l[0 := l[0][1..]] == [[], [], [4], [8], []];
    assert map[0 := 1, 2 := 0][3 := 0] == map[0 := 1, 2 := 0, 3 := 0];
  }

  lemma MallocStep(st: State, start: nat, h: Heap, g: Heap, size: nat, r: nat, page: nat, ops: seq<Op>)
    returns (next: State)
    requires WellFormed(st, h, 4) && 1 <= size <= 1024 && CeilLog2(RequestedBlocks(size)) == r
    requires Allocate(h, r) == Some((g, page))
    requires Sensible(ops) && ops != [] && ops[0] == Malloc(size)
    ensures WellFormed(next, g, 4) && DoAll(st, 4, start, ops) == DoAll(next, 4, start, ops[1..])
  {
    assert Pow2(4) == 16 by { assert Pow2(2) == 4; }
    next := Do(st, 4, start, Malloc(size));
    KmallocRefines(st, h, 4, start, size);
  }

  lemma FreeStep(st: State, start: nat, h: Heap, after: Heap) returns (next: State)
    requires WellFormed(st, h, 4)
    requires h == Heap([[], [], [4], [8], []], map[0 := 1, 2 := 0, 3 := 0])
    requires after == Heap([[2], [], [4], [8], []], map[0 := 1, 3 := 0])
    ensures WellFormed(next, after, 4) && DoAll(st, 4, start, [Free(start + 512)]) == next
  {
    assert Flip(2, 0) == 3;
    assert h.live - {2} == after.live;
    assert [2] + h.lists[0] == [2];
    assert Coalesce(h.lists, after.live, 2, 0, 4) == after.lists;
    KfreeRefines(st, h, 4, start, start + 512, 2);
    next := Do(st, 4, start, Free(start + 512));
    assert [Free(start + 512)][1..] == [];
    assert DoAll(next, 4, start, []) == next;
  }

  lemma StuckAtFirst(st: State, h: Heap)
    requires WellFormed(st, h, 4) && h == Heap([[2], [], [4], [8], []], map[0 := 1, 3 := 0])
    ensures |st.blocks| == 16 && st.blocks[0].order == 1 && !CanMerge(st, 4, 0, 1)
  {
    assert Pow2(4) == 16 by { assert Pow2(2) == 4; }
    assert Flip(0, 1) == 2;
    assert Stack(st, 1, h.lists[1]);
    RepresentsFlags(st, h, 4);
  }

  lemma TakeFirst(start: nat, two: seq<Op>) returns (st: State)
    requires two == [Malloc(256), Malloc(256), Free(start + 512)]
    ensures WellFormed(st, Heap([[], [2], [4], [8], []], map[0 := 1]), 4)
    ensures DoAll(Initial(4), 4, start, Breaking(start)) == DoAll(st, 4, start, two)
  {
    InitialWellFormed(4);
    FirstGrant();
    assert Breaking(start)[1..] == two;
    var after: Heap := Heap([[], [2], [4], [8], []], map[0 := 1]);
    st := MallocStep(Initial(4), start, InitialHeap(4), after, 512, 1, 0, Breaking(start));
  }

  lemma TakeSecond(st: State, start: nat, two: seq<Op>, one: seq<Op>) returns (next: State)
    requires WellFormed(st, Heap([[], [2], [4], [8], []], map[0 := 1]), 4)
    requires two == [Malloc(256), Malloc(256), Free(start + 512)] && one == [Malloc(256), Free(start + 512)]
    ensures WellFormed(next, Heap([[3], [], [4], [8], []], map[0 := 1, 2 := 0]), 4)
    ensures DoAll(st, 4, start, two) == DoAll(next, 4, start, one)
  {
    SecondGrant();
    assert two[1..] == one;
    var before: Heap := Heap([[], [2], [4], [8], []], map[0 := 1]);
    var after: Heap := Heap([[3], [], [4], [8], []], map[0 := 1, 2 := 0]);
    next := MallocStep(st, start, before, after, 256, 0, 2, two);
  }

  lemma TakeThird(st: State, start: nat, one: seq<Op>) returns (next: State)
    requires WellFormed(st, Heap([[3], [], [4], [8], []], map[0 := 1, 2 := 0]), 4)
    requires one == [Malloc(256), Free(start + 512)]
    ensures WellFormed(next, Heap([[], [], [4], [8], []], map[0 := 1, 2 := 0, 3 := 0]), 4)
    ensures DoAll(st, 4, start, one) == DoAll(next, 4, start, [Free(start + 512)])
  {
    ThirdGrant();
    assert one[1..] == [Free(start + 512)];
    var before: Heap := Heap([[3], [], [4], [8], []], map[0 := 1, 2 := 0]);
    var after: Heap := Heap([[], [], [4], [8], []], map[0 := 1, 2 := 0, 3 := 0]);
    next := MallocStep(st, start, before, after, 256, 0, 3, one);
  }

  /** On the kernel's own heap, wherever it starts, the general kfree is not safe: after these
      four calls freeing the first block would absorb its buddy, whose first half is free and
      whose second half is live. */
  lemma GuardCanFail(start: nat) returns (st: State, h: Heap)
    ensures st == DoAll(Initial(MAX_ORDER), MAX_ORDER, start, Breaking(start))
    ensures WellFormed(st, h, MAX_ORDER) && h.live == map[0 := 1, 3 := 0]
    ensures |st.blocks| == 16 && st.blocks[0].order == 1 && !CanMerge(st, MAX_ORDER, 0, 1)
    ensures !exists g :: WellFormed(Kfree(st, MAX_ORDER, start, start), g, MAX_ORDER) && g.live == h.live - {0}
  {
    h := Heap([[2], [], [4], [8], []], map[0 := 1, 3 := 0]);
    var two: seq<Op>, one: seq<Op> := [Malloc(256), Malloc(256), Free(start + 512)], [Malloc(256), Free(start + 512)];
    st := TakeFirst(start, two);
    st := TakeSecond(st, start, two, one);
    st := TakeThird(st, start, one);
    st := FreeStep(st, start, Heap([[], [], [4], [8], []], map[0 := 1, 2 := 0, 3 := 0]), h);
    StuckAtFirst(st, h);
    KfreeKeepsHeapIff(st, h, MAX_ORDER, start, start, 0);
  }
}
