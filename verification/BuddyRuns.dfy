/** Whole runs of the buddy system: any sequence of page requests, and releases that
    merge buddies. */
module BuddyRuns {
  import opened Util
  import opened Buddy

  // ---------------------------------------------------------------- request sequences

  datatype Grant = Refused | Granted(start: nat, order: nat)

  ghost predicate AllPositive(requests: seq<nat>) {
    forall i :: 0 <= i < |requests| ==> requests[i] >= 1
  }

  function Serve(h: Heap, requests: seq<nat>): (Heap, seq<Grant>)
    requires AllPositive(requests)
    decreases |requests|
  {
    if requests == [] then (h, [])
    else
      var r := CeilLog2(requests[0]);
      match Allocate(h, r)
      case None =>
        var (g, grants) := Serve(h, requests[1..]);
        (g, [Refused] + grants)
      case Some(got) =>
        var (g, grants) := Serve(got.0, requests[1..]);
        (g, [Granted(got.1, r)] + grants)
  }

  ghost predicate Granting(grant: Grant, p: nat) {
    grant.Granted? && Within(p, grant.start, grant.order)
  }

  ghost predicate GrantedIn(grants: seq<Grant>, p: nat) {
    exists i :: 0 <= i < |grants| && Granting(grants[i], p)
  }

  /** What is left of `free` once every grant has been handed out. */
  ghost function Left(free: set<nat>, grants: seq<Grant>): set<nat> {
    set p | p in free && !GrantedIn(grants, p)
  }

  function Total(grants: seq<Grant>): nat {
    if grants == [] then 0
    else (if grants[0].Granted? then Pow2(grants[0].order) else 0) + Total(grants[1..])
  }

  /** What every answer must be, judged by the request and the earlier answers alone. */
  ghost predicate AnswerOk(free: set<nat>, max: nat, n: nat, earlier: seq<Grant>, grant: Grant)
    requires n >= 1
  {
    match grant
    case Refused =>
      CeilLog2(n) > max || forall s: nat :: Aligned(s, CeilLog2(n)) ==> !WhollyFree(Left(free, earlier), s, CeilLog2(n))
    case Granted(s, o) =>
      o <= max && n <= Pow2(o) < 2 * n && Aligned(s, o) && WhollyFree(Left(free, earlier), s, o)
  }

  /** An answer that is right for what the first one left is right in the whole run. */
  lemma AnswerShift(free: set<nat>, max: nat, requests: seq<nat>, grants: seq<Grant>, i: nat)
    requires 0 < i < |requests| == |grants| && AllPositive(requests)
    requires AnswerOk(Left(free, [grants[0]]), max, requests[1..][i - 1], grants[1..][..i - 1], grants[1..][i - 1])
    ensures AnswerOk(free, max, requests[i], grants[..i], grants[i])
  {
    var earlier := grants[1..][..i - 1];
    assert grants[..i] == [grants[0]] + earlier;
    LeftAppend(free, [grants[0]], earlier);
  }

  /** Safety and completeness of every run: each grant is an aligned run of at least n and
      fewer than 2n units that no earlier grant touches, a refusal means no aligned run
      of the size was left, and granted plus free units always add up. */
  lemma {:induction false} ServeCorrect(h: Heap, usable: set<nat>, max: nat, requests: seq<nat>)
    requires Inv(h, usable, max)
    requires AllPositive(requests)
    ensures var (g, grants) := Serve(h, requests);
            var free := FreeUnits(usable, h.live);
            && |grants| == |requests|
            && Inv(g, usable, max)
            && FreeUnits(usable, g.live) == Left(free, grants)
            && |FreeUnits(usable, g.live)| + Total(grants) == |free|
            && forall i :: 0 <= i < |requests| ==> AnswerOk(free, max, requests[i], grants[..i], grants[i])
    decreases |requests|
  {
    var free := FreeUnits(usable, h.live);
    assert Left(free, []) == free;
    if requests != [] {
      var (g, grants) := Serve(h, requests);
      var next := Allocated(h, CeilLog2(requests[0]));
      var rest := grants[1..];
      ServeStep(h, usable, max, requests[0], grants[0]);
      ServeCorrect(next, usable, max, requests[1..]);
      assert grants == [grants[0]] + rest;
      LeftAppend(free, [grants[0]], rest);
      forall i | 0 <= i < |requests|
        ensures AnswerOk(free, max, requests[i], grants[..i], grants[i])
      {
        if i > 0 {
          AnswerShift(free, max, requests, grants, i);
        } else {
          assert grants[..0] == [];
        }
      }
    }
  }

  function Allocated(h: Heap, r: nat): Heap {
    if Allocate(h, r).Some? then Allocate(h, r).value.0 else h
  }

  lemma ServeStep(h: Heap, usable: set<nat>, max: nat, n: nat, grant: Grant)
    requires Inv(h, usable, max) && n >= 1
    requires var got := Allocate(h, CeilLog2(n));
             grant == if got.Some? then Granted(got.value.1, CeilLog2(n)) else Refused
    ensures var free, next := FreeUnits(usable, h.live), Allocated(h, CeilLog2(n));
            && Inv(next, usable, max)
            && FreeUnits(usable, next.live) == Left(free, [grant])
            && |FreeUnits(usable, next.live)| + (if grant.Granted? then Pow2(grant.order) else 0) == |free|
            && AnswerOk(free, max, n, [], grant)
  {
    var free, r := FreeUnits(usable, h.live), CeilLog2(n);
    AllocateCorrect(h, usable, max, r);
    assert Left(free, []) == free;
    if grant.Granted? {
      var units := Units(grant.start, r);
      UnitsCount(grant.start, r);
      assert forall p :: GrantedIn([grant], p) <==> Granting([grant][0], p);
      assert Left(free, [grant]) == free - units;
      assert units <= free && free - units + units == free;
    } else {
      assert Left(free, [grant]) == free;
    }
  }

  lemma LeftAppend(free: set<nat>, first: seq<Grant>, rest: seq<Grant>)
    ensures Left(free, first + rest) == Left(Left(free, first), rest)
  {
    forall p: nat ensures GrantedIn(first + rest, p) <==> GrantedIn(first, p) || GrantedIn(rest, p) {
      GrantedAppend(first, rest, p);
    }
  }

  lemma GrantedAppend(first: seq<Grant>, rest: seq<Grant>, p: nat)
    ensures GrantedIn(first + rest, p) <==> GrantedIn(first, p) || GrantedIn(rest, p)
  {
    var all := first + rest;
    if GrantedIn(first, p) {
      var i :| 0 <= i < |first| && Granting(first[i], p);
      assert all[i] == first[i];
    }
    if GrantedIn(rest, p) {
      var i :| 0 <= i < |rest| && Granting(rest[i], p);
      assert all[|first| + i] == rest[i];
    }
  }

  lemma UnitsCount(s: nat, o: nat)
    ensures |Units(s, o)| == Pow2(o)
  {
    var end := s + Pow2(o);
    RangeCount(s, end);
    forall p: nat ensures p in Units(s, o) <==> p in Range(s, end) {
      assert Within(p, s, o) <==> s <= p < end;
    }
    assert Units(s, o) == Range(s, end);
  }

  function Range(a: nat, b: nat): (r: set<nat>)
    requires a <= b
    ensures forall p: nat :: p in r <==> a <= p < b
    decreases b - a
  {
    if a == b then {} else {a} + Range(a + 1, b)
  }

  lemma {:induction false} RangeCount(a: nat, b: nat)
    requires a <= b
    ensures |Range(a, b)| == b - a
    decreases b - a
  {
    if a < b {
      RangeCount(a + 1, b);
      assert a !in Range(a + 1, b);
    }
  }

  /** Grants of one run never overlap. */
  lemma GrantsDisjoint(h: Heap, usable: set<nat>, max: nat, requests: seq<nat>, i: nat, j: nat)
    requires Inv(h, usable, max)
    requires AllPositive(requests)
    requires i < j < |requests|
    ensures var grants := Serve(h, requests).1;
            |grants| == |requests| &&
            (grants[i].Granted? && grants[j].Granted? ==>
               Disjoint(grants[i].start, grants[i].order, grants[j].start, grants[j].order))
  {
    ServeCorrect(h, usable, max, requests);
    var grants := Serve(h, requests).1;
    if grants[i].Granted? && grants[j].Granted? {
      var free := FreeUnits(usable, h.live);
      assert AnswerOk(free, max, requests[j], grants[..j], grants[j]);
      var (s, o, t, q) := (grants[i].start, grants[i].order, grants[j].start, grants[j].order);
      var p := if s <= t then t else s;
      assert grants[..j][i] == grants[i];
      assert Within(p, t, q) ==> p in Left(free, grants[..j]) && !Granting(grants[..j][i], p);
    }
  }

  // ---------------------------------------------------------------- the address 0

  ghost predicate GrantsPage(grants: seq<Grant>, p: nat) {
    exists i :: 0 <= i < |grants| && grants[i].Granted? && grants[i].start == p
  }

  lemma ServeFirst(h: Heap, g: Heap, s: nat, more: seq<nat>)
    requires AllPositive(more) && Allocate(h, 0) == Some((g, s))
    ensures Serve(h, [1] + more).1 == [Granted(s, 0)] + Serve(g, more).1
  {
  }

  lemma LaterGrant(first: Grant, rest: seq<Grant>, p: nat)
    requires GrantsPage(rest, p)
    ensures GrantsPage([first] + rest, p)
  {
    var i :| 0 <= i < |rest| && rest[i].Granted? && rest[i].start == p;
    assert ([first] + rest)[i + 1] == rest[i];
  }

  /** Asking for single pages reaches every free page in the end. */
  lemma {:induction false} EveryPageComes(h: Heap, usable: set<nat>, max: nat, p: nat) returns (requests: seq<nat>)
    requires Inv(h, usable, max) && p in FreeUnits(usable, h.live)
    ensures AllPositive(requests) && GrantsPage(Serve(h, requests).1, p)
    decreases |FreeUnits(usable, h.live)|
  {
    var free := FreeUnits(usable, h.live);
    AllocateCorrect(h, usable, max, 0);
    assert Aligned(p, 0) && WhollyFree(free, p, 0);
    var (g, s) := Allocate(h, 0).value;
    assert CeilLog2(1) == 0;
    if s == p {
      requests := [1];
      assert Serve(h, requests).1[0] == Granted(p, 0);
    } else {
      assert Within(s, s, 0) && s in free && s in Units(s, 0);
      assert FreeUnits(usable, g.live) < free && p in FreeUnits(usable, g.live);
      SubsetSmaller(FreeUnits(usable, g.live), free);
      var more := EveryPageComes(g, usable, max, p);
      requests := [1] + more;
      ServeFirst(h, g, s, more);
      LaterGrant(Granted(s, 0), Serve(g, more).1, p);
    }
  }

  lemma SubsetSmaller(a: set<nat>, b: set<nat>)
    requires a < b
    ensures |a| < |b|
  {
    var x :| x in b && x !in a;
    assert a <= b - {x};
    SubsetNotLarger(a, b - {x});
  }

  lemma {:induction false} SubsetNotLarger(a: set<nat>, b: set<nat>)
    requires a <= b
    ensures |a| <= |b|
  {
    if a != {} {
      var x :| x in a;
      SubsetNotLarger(a - {x}, b - {x});
    }
  }

  lemma GrantsFreePages(h: Heap, usable: set<nat>, max: nat, requests: seq<nat>)
    requires Inv(h, usable, max) && AllPositive(requests)
    ensures forall p: nat :: GrantsPage(Serve(h, requests).1, p) ==> p in FreeUnits(usable, h.live)
  {
    ServeCorrect(h, usable, max, requests);
    var grants, free := Serve(h, requests).1, FreeUnits(usable, h.live);
    forall i | 0 <= i < |grants| && grants[i].Granted? ensures grants[i].start in free {
      assert AnswerOk(free, max, requests[i], grants[..i], grants[i]);
      assert Within(grants[i].start, grants[i].start, grants[i].order);
    }
  }

  /** AllocatePageFrames returns 0 for a refusal and for page 0 alike. Callers can take 0 for
      a refusal in every run exactly when page 0 is not free at the start. */
  lemma ZeroMeansRefusedIff(h: Heap, usable: set<nat>, max: nat)
    requires Inv(h, usable, max)
    ensures 0 !in FreeUnits(usable, h.live) <==>
              forall requests: seq<nat> :: AllPositive(requests) ==> !GrantsPage(Serve(h, requests).1, 0)
  {
    if 0 in FreeUnits(usable, h.live) {
      var requests := EveryPageComes(h, usable, max, 0);
      assert AllPositive(requests) && GrantsPage(Serve(h, requests).1, 0);
    } else {
      forall requests: seq<nat> | AllPositive(requests) ensures !GrantsPage(Serve(h, requests).1, 0) {
        GrantsFreePages(h, usable, max, requests);
      }
    }
  }

  // ---------------------------------------------------------------- releasing

  /** Every buddy absorbed while merging (id, o) upwards heads the list of its order. */
  predicate MergeGuard(lists: Lists, live: map<nat, nat>, id: nat, o: nat, max: nat)
    requires |lists| == max + 1 && o <= max
    decreases max - o
  {
    || o == max
    || Flip(id, o) in live
    || (lists[o] != [] && lists[o][0] == Flip(id, o) && MergeGuard(lists, live, Parent(id, o), o + 1, max))
  }

  /** Return the block (id, o) to the lists, merging it with free buddies. */
  function Coalesce(lists: Lists, live: map<nat, nat>, id: nat, o: nat, max: nat): (l: Lists)
    requires |lists| == max + 1 && o <= max
    requires MergeGuard(lists, live, id, o, max)
    decreases max - o
  {
    if o == max || Flip(id, o) in live then lists[o := [id] + lists[o]]
    else
      GuardAbove(lists, lists[o := lists[o][1..]], live, Parent(id, o), o + 1, max);
      Coalesce(lists[o := lists[o][1..]], live, Parent(id, o), o + 1, max)
  }

  lemma {:induction false} GuardAbove(lists: Lists, other: Lists, live: map<nat, nat>, id: nat, o: nat, max: nat)
    requires |lists| == |other| == max + 1 && o <= max
    requires forall k :: o <= k <= max ==> lists[k] == other[k]
    ensures MergeGuard(lists, live, id, o, max) == MergeGuard(other, live, id, o, max)
    decreases max - o
  {
    if o < max {
      GuardAbove(lists, other, live, Parent(id, o), o + 1, max);
    }
  }

  lemma {:induction false} CoalesceCanonical(lists: Lists, free: set<nat>, usable: set<nat>, live: map<nat, nat>,
                                             id: nat, o: nat, max: nat)
    requires Canonical(lists, free, max) && o <= max && Aligned(id, o)
    requires MergeGuard(lists, live, id, o, max)
    requires forall p :: p in Units(id, o) ==> p !in free
    requires free + Units(id, o) == FreeUnits(usable, live)
    ensures Canonical(Coalesce(lists, live, id, o, max), FreeUnits(usable, live), max)
    decreases max - o
  {
    var buddy := Flip(id, o);
    ParentProperties(id, o);
    if o == max {
      AddBlock(lists, free, max, id, o);
    } else if buddy in live {
      assert Within(buddy, buddy, live[buddy]) && Within(buddy, Parent(id, o), o + 1);
      AddBlock(lists, free, max, id, o);
    } else {
      TakeHead(lists, free, max, o);
      var fewer, parent := free - Units(buddy, o), Parent(id, o);
      GuardAbove(lists, lists[o := lists[o][1..]], live, parent, o + 1, max);
      forall p: nat ensures Within(p, parent, o + 1) <==> Within(p, id, o) || Within(p, buddy, o) {
      }
      assert WhollyFree(free, buddy, o);
      assert forall p :: p in Units(parent, o + 1) ==> p !in fewer;
      assert fewer + Units(parent, o + 1) == free + Units(id, o);
      CoalesceCanonical(lists[o := lists[o][1..]], fewer, usable, live, parent, o + 1, max);
    }
  }

  function Release(h: Heap, id: nat, max: nat): Heap
    requires |h.lists| == max + 1 && id in h.live && h.live[id] <= max
    requires MergeGuard(h.lists, h.live - {id}, id, h.live[id], max)
  {
    Heap(Coalesce(h.lists, h.live - {id}, id, h.live[id], max), h.live - {id})
  }

  lemma FreeAfterRemove(usable: set<nat>, live: map<nat, nat>, max: nat, id: nat)
    requires LiveOk(live, usable, max) && id in live
    ensures LiveOk(live - {id}, usable, max)
    ensures FreeUnits(usable, live - {id}) == FreeUnits(usable, live) + Units(id, live[id])
    ensures forall p :: p in Units(id, live[id]) ==> p !in FreeUnits(usable, live)
  {
    var rest := live - {id};
    forall p: nat ensures Covered(live, p) <==> Covered(rest, p) || Within(p, id, live[id]) {
      if Covered(live, p) {
        var s :| s in live && Within(p, s, live[s]);
        assert s != id ==> s in rest;
      }
      if Covered(rest, p) {
        var s :| s in rest && Within(p, s, rest[s]);
        assert s in live;
      }
    }
    forall p: nat, s | Within(p, id, live[id]) && s in rest ensures !Within(p, s, rest[s]) {
      assert Disjoint(s, live[s], id, live[id]);
    }
  }

  /** Under the guard a release keeps the partition and the canonical form. */
  lemma ReleaseCorrect(h: Heap, usable: set<nat>, max: nat, id: nat)
    requires Inv(h, usable, max) && id in h.live
    requires MergeGuard(h.lists, h.live - {id}, id, h.live[id], max)
    ensures Inv(Release(h, id, max), usable, max)
    ensures FreeUnits(usable, Release(h, id, max).live) == FreeUnits(usable, h.live) + Units(id, h.live[id])
  {
    FreeAfterRemove(usable, h.live, max, id);
    CoalesceCanonical(h.lists, FreeUnits(usable, h.live), usable, h.live - {id}, id, h.live[id], max);
  }

  /** With nothing live, a heap of 2^max units is one block again. */
  lemma AllFreeIsOneBlock(h: Heap, max: nat)
    requires Inv(h, Units(0, max), max) && h.live == map[]
    ensures h.lists == seq(max + 1, o => if o == max then [0] else [])
  {
    var free := FreeUnits(Units(0, max), h.live);
    assert free == Units(0, max);
    ZeroAligned(max);
    assert Maximal(free, max, 0, max);
    forall s: nat, o: nat | Listed(h.lists, s, o)
      ensures s == 0 && o == max
    {
      assert Within(s, s, o);
      if s != 0 || o != max {
        MaximalDisjoint(free, max, 0, max, s, o);
        assert false;
      }
    }
    assert Listed(h.lists, 0, max);
    forall o | 0 <= o <= max
      ensures h.lists[o] == if o == max then [0] else []
    {
      var l := h.lists[o];
      forall i | 0 <= i < |l| ensures l[i] == 0 && o == max {
        assert Listed(h.lists, l[i], o);
      }
      assert |l| > 0 ==> l[0] == 0 && o == max;
      RepeatedZero(l);
    }
  }

  lemma RepeatedZero(l: seq<nat>)
    ensures |l| >= 2 && (forall i :: 0 <= i < |l| ==> l[i] == 0) ==> !NoDuplicates(l)
  {
    if |l| >= 2 && forall i :: 0 <= i < |l| ==> l[i] == 0 {
      assert l[0] == l[1];
    }
  }

  // ---------------------------------------------------------------- last-in first-out

  /** Every free block below the top order has a live block at its buddy's first unit. */
  ghost predicate BuddiesLive(h: Heap, max: nat) {
    forall s: nat, o: nat :: Listed(h.lists, s, o) && o < max ==> Flip(s, o) in h.live
  }

  lemma {:induction false} SplitListed(lists: Lists, front: nat, c: nat, r: nat, s: nat, o: nat)
    requires r <= c < |lists|
    ensures Listed(Split(lists, front, c, r), s, o) <==>
              Listed(lists, s, o) || (r <= o < c && s == front + Pow2(o))
    decreases c
  {
    if r < c {
      SplitListed(lists[c - 1 := [front + Pow2(c - 1)] + lists[c - 1]], front, c - 1, r, s, o);
    }
  }

  lemma {:induction false} CoalesceUndoesSplit(lists: Lists, live: map<nat, nat>, front: nat, c: nat, r: nat, max: nat)
    requires |lists| == max + 1 && r <= c <= max && Aligned(front, c)
    requires forall k :: r <= k < c ==> lists[k] == [] && front + Pow2(k) !in live
    requires MergeGuard(lists, live, front, c, max)
    ensures MergeGuard(Split(lists, front, c, r), live, front, r, max)
    ensures Coalesce(Split(lists, front, c, r), live, front, r, max) == Coalesce(lists, live, front, c, max)
    decreases c
  {
    if r < c {
      Halves(front, c - 1);
      var split := lists[c - 1 := [front + Pow2(c - 1)] + lists[c - 1]];
      GuardAbove(lists, split, live, front, c, max);
      CoalesceUndoesSplit(split, live, front, c - 1, r, max);
      assert split[c - 1 := split[c - 1][1..]] == lists;
    }
  }

  /** Releasing the block just allocated restores every list, and allocation keeps the
      condition that makes this so. */
  lemma ReleaseUndoesAllocate(h: Heap, usable: set<nat>, max: nat, r: nat)
    requires Inv(h, usable, max) && BuddiesLive(h, max) && Allocate(h, r).Some?
    ensures var (g, s) := Allocate(h, r).value;
            && BuddiesLive(g, max)
            && |g.lists| == max + 1 && s in g.live && g.live[s] == r <= max
            && MergeGuard(g.lists, g.live - {s}, s, r, max)
            && Release(g, s, max) == h
  {
    var (g, s) := Allocate(h, r).value;
    AllocateCorrect(h, usable, max, r);
    assert g.live - {s} == h.live;
    var c := FirstFit(h.lists, r);
    assert Listed(h.lists, s, c);
    CoalesceUndoesTake(h, usable, max, s, c, r);
    AllocateKeepsBuddiesLive(h, max, r);
  }

  lemma CoalesceUndoesTake(h: Heap, usable: set<nat>, max: nat, s: nat, c: nat, r: nat)
    requires Inv(h, usable, max) && BuddiesLive(h, max)
    requires r <= c <= max && h.lists[c] != [] && s == h.lists[c][0]
    requires forall k :: r <= k < c ==> h.lists[k] == []
    ensures var split := Split(h.lists[c := h.lists[c][1..]], s, c, r);
            MergeGuard(split, h.live, s, r, max) && Coalesce(split, h.live, s, r, max) == h.lists
  {
    var taken := h.lists[c := h.lists[c][1..]];
    assert Listed(h.lists, s, c);
    HalvesNotLive(h, usable, max, s, c);
    CoalesceUndoesSplit(taken, h.live, s, c, r, max);
    assert [s] + taken[c] == h.lists[c];
    assert taken[c := h.lists[c]] == h.lists;
  }

  lemma HalvesNotLive(h: Heap, usable: set<nat>, max: nat, s: nat, c: nat)
    requires Inv(h, usable, max) && Listed(h.lists, s, c)
    ensures forall k :: 0 <= k < c ==> s + Pow2(k) !in h.live
  {
    forall k | 0 <= k < c ensures s + Pow2(k) !in h.live {
      Pow2Monotone(k + 1, c);
      assert Within(s + Pow2(k), s, c);
      FreshStart(h, usable, s + Pow2(k));
    }
  }

  lemma AllocateKeepsBuddiesLive(h: Heap, max: nat, r: nat)
    requires BuddiesLive(h, max) && Allocate(h, r).Some?
    requires Aligned(Allocate(h, r).value.1, FirstFit(h.lists, r))
    ensures BuddiesLive(Allocate(h, r).value.0, max)
  {
    var (g, s) := Allocate(h, r).value;
    var c := FirstFit(h.lists, r);
    var taken := h.lists[c := h.lists[c][1..]];
    forall t: nat, q: nat | Listed(g.lists, t, q) && q < max
      ensures Flip(t, q) in g.live
    {
      SplitListed(taken, s, c, r, t, q);
      if Listed(taken, t, q) {
        assert Listed(h.lists, t, q);
      } else {
        AlignedBelow(s, c, q + 1);
        Halves(s, q);
      }
    }
  }
}
