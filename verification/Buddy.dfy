/** The buddy system both allocators implement, on values: naturally aligned blocks,
    free lists, and the independent description of what the lists must hold. A list
    state is right when its blocks are exactly the maximal aligned free runs, which the
    set of free units alone determines. */
module Buddy {
  import opened Util

  /** lists[o] is the free list of order o, head first, as block starts. */
  type Lists = seq<seq<nat>>

  /** The free lists and the live allocations (block start to order). */
  datatype Heap = Heap(lists: Lists, live: map<nat, nat>)

  /** s is a multiple of 2^o: its o lowest bits are clear. */
  predicate Aligned(s: nat, o: nat) {
    o == 0 || (s % 2 == 0 && Aligned(s / 2, o - 1))
  }

  predicate Within(p: nat, s: nat, o: nat) {
    s <= p < s + Pow2(o)
  }

  ghost function Units(s: nat, o: nat): set<nat> {
    set p: nat | p < s + Pow2(o) && Within(p, s, o)
  }

  ghost predicate WhollyFree(free: set<nat>, s: nat, o: nat) {
    forall p: nat :: Within(p, s, o) ==> p in free
  }

  ghost predicate Disjoint(s: nat, o: nat, t: nat, q: nat) {
    s + Pow2(o) <= t || t + Pow2(q) <= s
  }

  /** Start of the block of order o + 1 that contains the block (s, o). */
  function Parent(s: nat, o: nat): nat {
    if BitSet(s, o) then Flip(s, o) else s
  }

  /** A naturally aligned free run of at most 2^max units that no larger such run contains. */
  ghost predicate Maximal(free: set<nat>, max: nat, s: nat, o: nat) {
    && o <= max
    && Aligned(s, o)
    && WhollyFree(free, s, o)
    && (o < max ==> !WhollyFree(free, Parent(s, o), o + 1))
  }

  ghost predicate NoDuplicates(l: seq<nat>) {
    forall i, j :: 0 <= i < j < |l| ==> l[i] != l[j]
  }

  predicate Listed(lists: Lists, s: nat, o: nat) {
    o < |lists| && s in lists[o]
  }

  /** Canonical form: the lists hold each maximal free run once and nothing else. */
  ghost predicate Canonical(lists: Lists, free: set<nat>, max: nat) {
    && |lists| == max + 1
    && (forall s: nat, o: nat :: Listed(lists, s, o) <==> Maximal(free, max, s, o))
    && (forall o :: 0 <= o <= max ==> NoDuplicates(lists[o]))
  }

  // ---------------------------------------------------------------- alignment

  lemma {:induction false} AlignedMeans(s: nat, o: nat)
    ensures Aligned(s, o) <==> s % Pow2(o) == 0
  {
    if o > 0 {
      AlignedMeans(s / 2, o - 1);
      DivHalf(s, Pow2(o - 1));
    }
  }

  lemma {:induction false} ZeroAligned(o: nat)
    ensures Aligned(0, o)
  {
    if o > 0 {
      ZeroAligned(o - 1);
    }
  }

  /** The two halves of an aligned block are each other's buddies. */
  lemma {:induction false} Halves(s: nat, o: nat)
    requires Aligned(s, o + 1)
    ensures Aligned(s, o) && Aligned(s + Pow2(o), o)
    ensures !BitSet(s, o) && Flip(s, o) == s + Pow2(o)
    ensures BitSet(s + Pow2(o), o) && Flip(s + Pow2(o), o) == s
    ensures Parent(s, o) == s && Parent(s + Pow2(o), o) == s
    decreases o
  {
    if o > 0 {
      Halves(s / 2, o - 1);
      assert (s + Pow2(o)) / 2 == s / 2 + Pow2(o - 1);
    }
  }

  /** The parent of the half of an even block, with t = s / 2, q = o - 1. */
  lemma ParentHalf(s: nat, o: nat, t: nat, q: nat)
    requires o == q + 1 && s == 2 * t
    ensures Parent(s, o) == 2 * Parent(t, q)
  {
    FlipHalf(s, o, t, q);
  }

  lemma AlignedDouble(s: nat, o: nat, t: nat, q: nat)
    requires o == q + 1 && s == 2 * t && Aligned(t, q)
    ensures Aligned(s, o)
  {
    assert s / 2 == t;
  }

  lemma {:induction false} ParentAligned(s: nat, o: nat)
    requires Aligned(s, o)
    ensures Aligned(Parent(s, o), o + 1)
    decreases o
  {
    if o > 0 {
      var t, q := s / 2, o - 1;
      ParentAligned(t, q);
      ParentHalf(s, o, t, q);
      AlignedDouble(Parent(s, o), o + 1, Parent(t, q), q + 1);
    }
  }

  lemma ParentProperties(s: nat, o: nat)
    requires Aligned(s, o)
    ensures Aligned(Parent(s, o), o + 1)
    ensures Flip(s, o) == if s == Parent(s, o) then s + Pow2(o) else Parent(s, o)
    ensures s == Parent(s, o) || s == Parent(s, o) + Pow2(o)
    ensures Aligned(Flip(s, o), o) && Parent(Flip(s, o), o) == Parent(s, o) && Flip(Flip(s, o), o) == s
  {
    ParentAligned(s, o);
    Halves(Parent(s, o), o);
  }

  lemma {:induction false} SameOrderSame(s: nat, t: nat, o: nat, p: nat)
    requires Aligned(s, o) && Aligned(t, o)
    requires s <= p < s + Pow2(o) && t <= p < t + Pow2(o)
    ensures s == t
    decreases o
  {
    if o > 0 {
      SameOrderSame(s / 2, t / 2, o - 1, p / 2);
    }
  }

  /** Aligned blocks that share a unit are nested. */
  lemma {:induction false} Nested(s: nat, o: nat, t: nat, q: nat, p: nat)
    requires Aligned(s, o) && Aligned(t, q) && o <= q
    requires s <= p < s + Pow2(o) && t <= p < t + Pow2(q)
    ensures t <= s && s + Pow2(o) <= t + Pow2(q)
    ensures o < q ==> t <= Parent(s, o) && Parent(s, o) + Pow2(o + 1) <= t + Pow2(q)
    decreases q - o
  {
    if o == q {
      SameOrderSame(s, t, o, p);
    } else {
      ParentProperties(s, o);
      Nested(Parent(s, o), o + 1, t, q, p);
    }
  }

  // ---------------------------------------------------------------- maximal runs

  /** Distinct maximal runs never overlap. */
  lemma MaximalDisjoint(free: set<nat>, max: nat, s: nat, o: nat, t: nat, q: nat)
    requires Maximal(free, max, s, o) && Maximal(free, max, t, q)
    requires s != t || o != q
    ensures Disjoint(s, o, t, q)
  {
    if !Disjoint(s, o, t, q) {
      var p := if s <= t then t else s;
      if o == q {
        SameOrderSame(s, t, o, p);
      } else if o < q {
        Nested(s, o, t, q, p);
      } else {
        Nested(t, q, s, o, p);
      }
    }
  }

  /** Completeness: every aligned free run lies inside a maximal one, so it is listed
      or part of something larger that is. */
  lemma {:induction false} MaximalAbove(free: set<nat>, max: nat, s: nat, o: nat) returns (t: nat, q: nat)
    requires o <= max && Aligned(s, o) && WhollyFree(free, s, o)
    ensures o <= q && Maximal(free, max, t, q)
    ensures t <= s && s + Pow2(o) <= t + Pow2(q)
    decreases max - o
  {
    if o < max && WhollyFree(free, Parent(s, o), o + 1) {
      ParentProperties(s, o);
      t, q := MaximalAbove(free, max, Parent(s, o), o + 1);
    } else {
      t, q := s, o;
    }
  }

  /** The listed blocks are aligned, free, and together cover the free units. */
  ghost predicate Tiles(lists: Lists, free: set<nat>, max: nat) {
    && |lists| == max + 1
    && (forall s: nat, o: nat :: Listed(lists, s, o) ==> Aligned(s, o) && WhollyFree(free, s, o))
    && (forall p: nat :: p in free ==> exists s: nat, o: nat :: Listed(lists, s, o) && Within(p, s, o))
  }

  /** No unit is listed twice. */
  ghost predicate Apart(lists: Lists) {
    && (forall s: nat, o: nat, t: nat, q: nat ::
          Listed(lists, s, o) && Listed(lists, t, q) && (s != t || o != q) ==> Disjoint(s, o, t, q))
    && (forall o :: 0 <= o < |lists| ==> NoDuplicates(lists[o]))
  }

  ghost predicate NoFreeBuddies(lists: Lists, max: nat) {
    forall s: nat, o: nat :: Listed(lists, s, o) && o < max ==> !Listed(lists, Flip(s, o), o)
  }

  /** In a partition without two free buddies, every aligned free run is part of one
      listed block: the two halves of a run must lie in the same block. */
  lemma {:induction false} CoveredByOne(lists: Lists, free: set<nat>, max: nat, s: nat, o: nat)
    returns (t: nat, q: nat)
    requires Tiles(lists, free, max) && NoFreeBuddies(lists, max)
    requires o <= max && Aligned(s, o) && WhollyFree(free, s, o)
    ensures Listed(lists, t, q) && o <= q && t <= s && s + Pow2(o) <= t + Pow2(q)
    decreases o
  {
    if o == 0 {
      assert s in free;
      t, q :| Listed(lists, t, q) && Within(s, t, q);
    } else {
      Halves(s, o - 1);
      var half := s + Pow2(o - 1);
      t, q := CoveredByOne(lists, free, max, s, o - 1);
      if q == o - 1 {
        SameOrderSame(s, t, o - 1, s);
        t, q := CoveredByOne(lists, free, max, half, o - 1);
        if q == o - 1 {
          assert false;
        }
        Nested(s, o, t, q, half);
      } else {
        Nested(s, o, t, q, s);
      }
    }
  }

  /** The blocks listed in canonical form partition the free units. */
  lemma CanonicalPartition(lists: Lists, free: set<nat>, max: nat)
    requires Canonical(lists, free, max)
    ensures Tiles(lists, free, max) && Apart(lists)
  {
    forall p: nat | p in free
      ensures exists s: nat, o: nat :: Listed(lists, s, o) && Within(p, s, o)
    {
      var t, q := MaximalAbove(free, max, p, 0);
      assert Listed(lists, t, q) && Within(p, t, q);
    }
    forall s: nat, o: nat, t: nat, q: nat |
      Listed(lists, s, o) && Listed(lists, t, q) && (s != t || o != q)
      ensures Disjoint(s, o, t, q)
    {
      MaximalDisjoint(free, max, s, o, t, q);
    }
  }

  lemma BothHalvesFree(free: set<nat>, s: nat, o: nat)
    requires Aligned(s, o)
    ensures WhollyFree(free, s, o) && WhollyFree(free, Flip(s, o), o) <==> WhollyFree(free, Parent(s, o), o + 1)
  {
  }

  lemma TileIsMaximal(lists: Lists, free: set<nat>, max: nat, s: nat, o: nat)
    requires Tiles(lists, free, max) && Apart(lists) && NoFreeBuddies(lists, max)
    requires Listed(lists, s, o)
    ensures Maximal(free, max, s, o)
  {
    if o < max && WhollyFree(free, Parent(s, o), o + 1) {
      ParentProperties(s, o);
      var t, q := CoveredByOne(lists, free, max, Parent(s, o), o + 1);
      assert false;
    }
  }

  /** Canonical form is a partition in which no two buddies are both free; conversely the
      free units alone then determine the blocks. */
  lemma CanonicalIffNoFreeBuddies(lists: Lists, free: set<nat>, max: nat)
    requires Apart(lists)
    ensures Tiles(lists, free, max) && NoFreeBuddies(lists, max) <==> Canonical(lists, free, max)
  {
    if Tiles(lists, free, max) && NoFreeBuddies(lists, max) {
      forall s: nat, o: nat ensures Listed(lists, s, o) <==> Maximal(free, max, s, o) {
        if Listed(lists, s, o) {
          TileIsMaximal(lists, free, max, s, o);
        } else if Maximal(free, max, s, o) {
          var t, q := CoveredByOne(lists, free, max, s, o);
          TileIsMaximal(lists, free, max, t, q);
          MaximalDisjoint(free, max, s, o, t, q);
          assert false;
        }
      }
    }
    if Canonical(lists, free, max) {
      CanonicalPartition(lists, free, max);
      forall s: nat, o: nat | Listed(lists, s, o) && o < max
        ensures !Listed(lists, Flip(s, o), o)
      {
        ParentProperties(s, o);
        BothHalvesFree(free, s, o);
      }
    }
  }

  // ---------------------------------------------------------------- taking and adding blocks

  /** Removing a maximal run from the free set removes it from the maximal runs and
      disturbs no other. */
  lemma MaximalAfterTake(free: set<nat>, max: nat, s: nat, o: nat, t: nat, q: nat)
    requires Maximal(free, max, s, o)
    ensures Maximal(free - Units(s, o), max, t, q) <==> Maximal(free, max, t, q) && (t != s || q != o)
  {
    var rest := free - Units(s, o);
    if Maximal(free, max, t, q) && (t != s || q != o) {
      MaximalDisjoint(free, max, s, o, t, q);
    }
    if Maximal(rest, max, t, q) {
      assert Disjoint(s, o, t, q) by {
        if !Disjoint(s, o, t, q) {
          var p := if s <= t then t else s;
          assert Within(p, s, o) && Within(p, t, q);
          assert false;
        }
      }
      if q < max && WhollyFree(free, Parent(t, q), q + 1) {
        var p: nat :| Within(p, Parent(t, q), q + 1) && p !in rest;
        assert Within(p, s, o);
        ParentProperties(t, q);
        if q + 1 <= o {
          Nested(Parent(t, q), q + 1, s, o, p);
        } else {
          Nested(s, o, Parent(t, q), q + 1, p);
        }
        assert false;
      }
    }
  }

  lemma TakeHead(lists: Lists, free: set<nat>, max: nat, o: nat)
    requires Canonical(lists, free, max) && o <= max && lists[o] != []
    ensures Maximal(free, max, lists[o][0], o)
    ensures Canonical(lists[o := lists[o][1..]], free - Units(lists[o][0], o), max)
  {
    var s, rest := lists[o][0], lists[o := lists[o][1..]];
    assert Listed(lists, s, o);
    forall t: nat, q: nat
      ensures Listed(rest, t, q) <==> Listed(lists, t, q) && (t != s || q != o)
    {
      if q == o {
        assert lists[o] == [s] + lists[o][1..];
      }
    }
    forall t: nat, q: nat
      ensures Listed(rest, t, q) <==> Maximal(free - Units(s, o), max, t, q)
    {
      MaximalAfterTake(free, max, s, o, t, q);
    }
  }

  /** Adding a block whose buddy is not wholly free keeps the canonical form. */
  lemma AddBlock(lists: Lists, free: set<nat>, max: nat, s: nat, o: nat)
    requires Canonical(lists, free, max) && o <= max && Aligned(s, o)
    requires forall p :: p in Units(s, o) ==> p !in free
    requires o < max ==> !WhollyFree(free + Units(s, o), Parent(s, o), o + 1)
    ensures Canonical(lists[o := [s] + lists[o]], free + Units(s, o), max)
  {
    var more, all := lists[o := [s] + lists[o]], free + Units(s, o);
    assert all - Units(s, o) == free;
    assert Maximal(all, max, s, o);
    assert s !in lists[o] by {
      assert s in Units(s, o);
      assert Listed(lists, s, o) ==> WhollyFree(free, s, o);
    }
    forall t: nat, q: nat
      ensures Listed(more, t, q) <==> Maximal(all, max, t, q)
    {
      MaximalAfterTake(all, max, s, o, t, q);
      assert Listed(more, t, q) <==> Listed(lists, t, q) || (t == s && q == o);
    }
  }

  // ---------------------------------------------------------------- allocation

  /** The first order from r up whose list is not empty. */
  function FirstFit(lists: Lists, r: nat): (c: nat)
    requires r <= |lists|
    ensures r <= c <= |lists|
    ensures c < |lists| ==> lists[c] != []
    ensures forall k :: r <= k < c ==> lists[k] == []
    decreases |lists| - r
  {
    if r == |lists| || lists[r] != [] then r else FirstFit(lists, r + 1)
  }

  /** Cut the unlisted block (front, c) down to order r, listing each upper half. */
  function Split(lists: Lists, front: nat, c: nat, r: nat): (l: Lists)
    requires r <= c < |lists|
    ensures |l| == |lists|
    decreases c
  {
    if c == r then lists
    else Split(lists[c - 1 := [front + Pow2(c - 1)] + lists[c - 1]], front, c - 1, r)
  }

  /** Serve a request for one block of order r from the smallest sufficient free block. */
  function Allocate(h: Heap, r: nat): Option<(Heap, nat)> {
    if r >= |h.lists| then None
    else
      var c := FirstFit(h.lists, r);
      if c == |h.lists| then None
      else
        var front := h.lists[c][0];
        Some((Heap(Split(h.lists[c := h.lists[c][1..]], front, c, r), h.live[front := r]), front))
  }

  predicate Covered(live: map<nat, nat>, p: nat) {
    exists s :: s in live && Within(p, s, live[s])
  }

  /** The usable units no live allocation covers. */
  ghost function FreeUnits(usable: set<nat>, live: map<nat, nat>): set<nat> {
    set p | p in usable && !Covered(live, p)
  }

  ghost predicate LiveOk(live: map<nat, nat>, usable: set<nat>, max: nat) {
    && (forall s :: s in live ==> live[s] <= max && Aligned(s, live[s]) && WhollyFree(usable, s, live[s]))
    && (forall s, t :: s in live && t in live && s != t ==> Disjoint(s, live[s], t, live[t]))
  }

  /** Live blocks and free blocks partition the usable units, the free ones canonically. */
  ghost predicate Inv(h: Heap, usable: set<nat>, max: nat) {
    && LiveOk(h.live, usable, max)
    && Canonical(h.lists, FreeUnits(usable, h.live), max)
  }

  lemma {:induction false} SplitCanonical(lists: Lists, free: set<nat>, max: nat, front: nat, c: nat, r: nat)
    requires Canonical(lists, free, max) && r <= c <= max && Aligned(front, c)
    requires forall p :: p in Units(front, c) ==> p !in free
    ensures Canonical(Split(lists, front, c, r), free + (Units(front, c) - Units(front, r)), max)
    decreases c
  {
    if c == r {
      assert free + (Units(front, c) - Units(front, r)) == free;
    } else {
      var half := front + Pow2(c - 1);
      Halves(front, c - 1);
      var more := free + Units(half, c - 1);
      assert front in Units(front, c);
      assert front !in more;
      AddBlock(lists, free, max, half, c - 1);
      Pow2Monotone(r, c - 1);
      SplitCanonical(lists[c - 1 := [half] + lists[c - 1]], more, max, front, c - 1, r);
      assert more + (Units(front, c - 1) - Units(front, r)) == free + (Units(front, c) - Units(front, r));
    }
  }

  lemma FreeAfterAdd(usable: set<nat>, live: map<nat, nat>, s: nat, r: nat)
    requires s !in live
    ensures FreeUnits(usable, live[s := r]) == FreeUnits(usable, live) - Units(s, r)
  {
    forall p: nat
      ensures Covered(live[s := r], p) <==> Covered(live, p) || Within(p, s, r)
    {
      if Within(p, s, r) {
        assert s in live[s := r];
      }
      if Covered(live, p) {
        var t :| t in live && Within(p, t, live[t]);
        assert t in live[s := r];
      }
    }
  }

  lemma FreshStart(h: Heap, usable: set<nat>, s: nat)
    requires s in FreeUnits(usable, h.live)
    ensures s !in h.live
  {
  }

  /** s fronts the list of the least order from r up that has a block. */
  predicate BestFit(lists: Lists, r: nat, s: nat) {
    exists c :: r <= c < |lists| && lists[c] != [] && lists[c][0] == s && forall k :: r <= k < c ==> lists[k] == []
  }

  /** A refused request means no naturally aligned run of the requested size is free;
      a granted one is such a run, cut from the smallest block that holds it, and every invariant survives it. */
  lemma AllocateCorrect(h: Heap, usable: set<nat>, max: nat, r: nat)
    requires Inv(h, usable, max)
    ensures Allocate(h, r).None? <==>
              r > max || forall s: nat :: Aligned(s, r) ==> !WhollyFree(FreeUnits(usable, h.live), s, r)
    ensures Allocate(h, r).Some? ==>
              var (g, s) := Allocate(h, r).value;
              && r <= max && Aligned(s, r) && WhollyFree(FreeUnits(usable, h.live), s, r) && s !in h.live
              && BestFit(h.lists, r, s)
              && g.live == h.live[s := r]
              && FreeUnits(usable, g.live) == FreeUnits(usable, h.live) - Units(s, r)
              && Inv(g, usable, max)
  {
    var free := FreeUnits(usable, h.live);
    if r <= max {
      var c := FirstFit(h.lists, r);
      if c == |h.lists| {
        forall s: nat | Aligned(s, r) ensures !WhollyFree(free, s, r) {
          if WhollyFree(free, s, r) {
            var t, q := MaximalAbove(free, max, s, r);
            assert false;
          }
        }
      } else {
        var s := h.lists[c][0];
        TakeHead(h.lists, free, max, c);
        AlignedBelow(s, c, r);
        Pow2Monotone(r, c);
        FreshStart(h, usable, s);
        FreeAfterAdd(usable, h.live, s, r);
        SplitCanonical(h.lists[c := h.lists[c][1..]], free - Units(s, c), max, s, c, r);
        assert free - Units(s, c) + (Units(s, c) - Units(s, r)) == free - Units(s, r);
        LiveAfterAdd(h.live, usable, max, s, r);
      }
    }
  }

  lemma LiveAfterAdd(live: map<nat, nat>, usable: set<nat>, max: nat, s: nat, r: nat)
    requires LiveOk(live, usable, max) && r <= max
    requires Aligned(s, r) && WhollyFree(FreeUnits(usable, live), s, r)
    ensures LiveOk(live[s := r], usable, max)
  {
    var free := FreeUnits(usable, live);
    forall t | t in live ensures Disjoint(s, r, t, live[t]) {
      var p := if s <= t then t else s;
      assert Within(p, t, live[t]) ==> p !in free;
      assert s <= p < s + Pow2(r) ==> p in free;
    }
    assert WhollyFree(usable, s, r);
  }

  lemma {:induction false} AlignedBelow(s: nat, c: nat, r: nat)
    requires Aligned(s, c) && r <= c
    ensures Aligned(s, r)
    decreases c
  {
    if r < c {
      Halves(s, c - 1);
      AlignedBelow(s, c - 1, r);
    }
  }
}
