/** What fork needs of page tables on values: which frames a process owns, that tables
    untouched keep their meaning, and that a store through one process's user mapping is
    invisible in every other. */
module AddressSpaces {
  import opened Util
  import opened Memory
  import opened Paging
  import opened PageTables

  /** A process's memory: its address space and its kernel stack frame. */
  datatype Process = Process(space: Space, kernelStack: nat)

  /** The eight frames of a process, the page tables first. */
  function Owned(p: Process): (f: seq<nat>)
    ensures |f| == 8
  {
    [p.space.l4, p.space.l3Lower, p.space.l3Higher, p.space.l2Higher, p.space.l1Higher,
     p.space.text, p.space.stack, p.kernelStack]
  }

  /** The frames of all processes: frame i % 8 of process i / 8. */
  function FrameOf(ps: seq<Process>, i: nat): nat
    requires i < 8 * |ps|
  {
    Owned(ps[i / 8])[i % 8]
  }

  /** No frame belongs to two processes or serves one of them twice. */
  ghost predicate Separate(ps: seq<Process>) {
    && (forall i: nat :: i < 8 * |ps| ==> IsFrame(FrameOf(ps, i)))
    && (forall i: nat, j: nat :: i < j < 8 * |ps| ==> FrameOf(ps, i) != FrameOf(ps, j))
  }

  lemma OwnedFrames(ps: seq<Process>, k: nat, i: nat)
    requires k < |ps| && i < 8
    ensures FrameOf(ps, 8 * k + i) == Owned(ps[k])[i]
  {
  }

  lemma SpaceFrames(ps: seq<Process>, k: nat)
    requires k < |ps| && Separate(ps)
    ensures Frames(ps[k].space) && IsFrame(ps[k].kernelStack)
  {
    forall i: nat | i < 8 ensures IsFrame(Owned(ps[k])[i]) {
      OwnedFrames(ps, k, i);
      assert IsFrame(FrameOf(ps, 8 * k + i));
    }
    var f := Owned(ps[k]);
    assert IsFrame(f[0]) && IsFrame(f[1]) && IsFrame(f[2]) && IsFrame(f[3]) && IsFrame(f[4]);
    assert IsFrame(f[5]) && IsFrame(f[6]) && IsFrame(f[7]);
  }

  lemma OwnedDiffer(ps: seq<Process>, k: nat, i: nat, l: nat, j: nat)
    requires k < |ps| && l < |ps| && i < 8 && j < 8 && Separate(ps) && (k != l || i != j)
    ensures Owned(ps[k])[i] != Owned(ps[l])[j]
  {
    OwnedFrames(ps, k, i);
    OwnedFrames(ps, l, j);
    var a, b := 8 * k + i, 8 * l + j;
    assert FrameOf(ps, if a < b then a else b) != FrameOf(ps, if a < b then b else a);
  }

  function TableFrames(s: Space): set<nat> {
    {s.l4 / 0x1000, s.l3Lower / 0x1000, s.l3Higher / 0x1000, s.l2Higher / 0x1000, s.l1Higher / 0x1000}
  }

  lemma TableKeeps(m: seq<Byte>, n: seq<Byte>, table: nat, entries: map<nat, Word>, touched: set<nat>)
    requires |m| == SPACE && IsFrame(table) && Table(m, table, entries)
    requires Changed(m, n, touched) && table / 0x1000 !in touched
    ensures Table(n, table, entries)
  {
    forall i: nat | i < 512 ensures EntryAt(n, table, i) == EntryAt(m, table, i) {
      forall a | table + 8 * i <= a < table + 8 * i + 8 ensures a / 0x1000 == table / 0x1000 {
      }
      LoadSame(m, n, table + 8 * i);
    }
  }

  /** Page tables keep their meaning as long as nothing writes to their frames. */
  lemma BuiltKeeps(m: seq<Byte>, n: seq<Byte>, s: Space, touched: set<nat>)
    requires |m| == SPACE && Frames(s) && Built(m, s) && Changed(m, n, touched)
    requires TableFrames(s) !! touched
    ensures Built(n, s)
  {
    assert s.l4 / 0x1000 in TableFrames(s);
    assert s.l3Lower / 0x1000 in TableFrames(s) && s.l3Higher / 0x1000 in TableFrames(s);
    assert s.l2Higher / 0x1000 in TableFrames(s) && s.l1Higher / 0x1000 in TableFrames(s);
    TableKeeps(m, n, s.l3Lower, LowerEntries(), touched);
    TableKeeps(m, n, s.l1Higher, map[510 := Pointer(true, s.text), 511 := Pointer(true, s.stack)], touched);
    TableKeeps(m, n, s.l2Higher, map[511 := Pointer(true, s.l1Higher)], touched);
    TableKeeps(m, n, s.l3Higher, map[511 := Pointer(true, s.l2Higher)], touched);
    TableKeeps(m, n, s.l4, map[0 := Pointer(false, s.l3Lower), 511 := Pointer(true, s.l3Higher)], touched);
  }

  /** Every process's tables are built and nobody shares a frame. */
  ghost predicate AllBuilt(m: seq<Byte>, ps: seq<Process>) {
    && |m| == SPACE && Separate(ps)
    && forall k: nat :: k < |ps| ==> Frames(ps[k].space) && Built(m, ps[k].space)
  }

  /** Where user address a of process p lies in physical memory. */
  function Physical(p: Process, a: Word): nat
    requires a >= TEXT
  {
    Owned(p)[Hit(a)] + a % 0x1000
  }

  function Hit(a: Word): (i: nat)
    ensures i < 8
  {
    if a >= STACK then 6 else 5
  }

  /** The byte user mode of process p sees at a. */
  function UserByte(m: seq<Byte>, p: Process, a: Word): Byte
    requires |m| == SPACE && Frames(p.space) && Built(m, p.space) && a >= TEXT
  {
    BuiltMeaning(m, p.space, a);
    m[CalcPhyAddr(m, a, p.space.l4).address]
  }

  /** A user address lands in the process's own text or stack frame. */
  lemma UserFrame(m: seq<Byte>, p: Process, a: Word)
    requires |m| == SPACE && Frames(p.space) && Built(m, p.space) && a >= TEXT
    ensures CalcPhyAddr(m, a, p.space.l4) == Mapped(Physical(p, a)) && Physical(p, a) < SPACE
    ensures Physical(p, a) / 0x1000 == Owned(p)[Hit(a)] / 0x1000
    ensures UserByte(m, p, a) == m[Physical(p, a)]
  {
    BuiltMeaning(m, p.space, a);
  }

  lemma FramesApart(f: nat, g: nat)
    requires IsFrame(f) && IsFrame(g) && f != g
    ensures f / 0x1000 != g / 0x1000
  {
  }

  /** A store in user mode by process p at a, where its tables let user mode write. */
  ghost function UserStore(m: seq<Byte>, p: Process, a: Word, v: Byte): (n: seq<Byte>)
    requires |m| == SPACE && Frames(p.space) && Built(m, p.space) && UserWritable(m, a, p.space.l4)
    ensures |n| == |m|
  {
    BuiltMeaning(m, p.space, a);
    UserFrame(m, p, a);
    m[CalcPhyAddr(m, a, p.space.l4).address := v]
  }

  /** Isolation: after a store by process k at any of its user addresses every page table
      still means the same, the storing process sees exactly that byte changed, and every
      other process sees all its bytes unchanged. */
  lemma StoreIsolated(m: seq<Byte>, ps: seq<Process>, k: nat, a: Word, v: Byte)
    requires AllBuilt(m, ps) && k < |ps| && UserWritable(m, a, ps[k].space.l4)
    ensures a >= TEXT
    ensures var n := UserStore(m, ps[k], a, v);
            && AllBuilt(n, ps)
            && (forall l: nat, b: Word :: l < |ps| && b >= TEXT ==>
                  UserByte(n, ps[l], b) == if l == k && b == a then v else UserByte(m, ps[l], b))
  {
    BuiltMeaning(m, ps[k].space, a);
    var n := UserStore(m, ps[k], a, v);
    forall l: nat | l < |ps| ensures Frames(ps[l].space) && Built(n, ps[l].space) {
      StoreKeepsTables(m, ps, k, a, v, l);
    }
    forall l: nat, b: Word | l < |ps| && b >= TEXT
      ensures UserByte(n, ps[l], b) == if l == k && b == a then v else UserByte(m, ps[l], b)
    {
      StoreSeen(m, n, ps, k, a, v, l, b);
    }
  }

  lemma StoreKeepsTables(m: seq<Byte>, ps: seq<Process>, k: nat, a: Word, v: Byte, l: nat)
    requires AllBuilt(m, ps) && k < |ps| && UserWritable(m, a, ps[k].space.l4) && a >= TEXT && l < |ps|
    ensures Built(UserStore(m, ps[k], a, v), ps[l].space)
  {
    UserFrame(m, ps[k], a);
    var f, g := Owned(ps[k])[Hit(a)] / 0x1000, Owned(ps[l]);
    forall i: nat | i < 5 ensures g[i] / 0x1000 != f {
      StoreMisses(ps, k, Hit(a), l, i);
    }
    assert g[0] / 0x1000 != f && g[1] / 0x1000 != f && g[2] / 0x1000 != f && g[3] / 0x1000 != f && g[4] / 0x1000 != f;
    BuiltKeeps(m, UserStore(m, ps[k], a, v), ps[l].space, {f});
  }

  lemma StoreSeen(m: seq<Byte>, n: seq<Byte>, ps: seq<Process>, k: nat, a: Word, v: Byte, l: nat, b: Word)
    requires AllBuilt(m, ps) && k < |ps| && l < |ps| && a >= TEXT && b >= TEXT && UserWritable(m, a, ps[k].space.l4)
    requires n == UserStore(m, ps[k], a, v) && Built(n, ps[l].space)
    ensures UserByte(n, ps[l], b) == if l == k && b == a then v else UserByte(m, ps[l], b)
  {
    UserFrame(m, ps[k], a);
    UserFrame(m, ps[l], b);
    UserFrame(n, ps[l], b);
    PhysicalDiffers(ps, k, a, l, b);
  }

  lemma PhysicalDiffers(ps: seq<Process>, k: nat, a: Word, l: nat, b: Word)
    requires Separate(ps) && k < |ps| && l < |ps| && a >= TEXT && b >= TEXT
    ensures Physical(ps[k], a) == Physical(ps[l], b) <==> k == l && a == b
  {
    OwnedFrames(ps, k, Hit(a));
    OwnedFrames(ps, l, Hit(b));
    assert IsFrame(FrameOf(ps, 8 * k + Hit(a))) && IsFrame(FrameOf(ps, 8 * l + Hit(b)));
    if k != l || Hit(a) != Hit(b) {
      OwnedDiffer(ps, k, Hit(a), l, Hit(b));
    }
  }

  lemma StoreMisses(ps: seq<Process>, k: nat, x: nat, l: nat, i: nat)
    requires Separate(ps) && k < |ps| && l < |ps| && x < 8 && i < 8 && (k != l || x != i)
    ensures Owned(ps[l])[i] / 0x1000 != Owned(ps[k])[x] / 0x1000
  {
    OwnedDiffer(ps, k, x, l, i);
    OwnedFrames(ps, k, x);
    OwnedFrames(ps, l, i);
    assert IsFrame(FrameOf(ps, 8 * k + x)) && IsFrame(FrameOf(ps, 8 * l + i));
    FramesApart(Owned(ps[l])[i], Owned(ps[k])[x]);
  }

  // ---------------------------------------------------------------- a new process

  function Pages(p: Process): set<nat> {
    TableFrames(p.space) + {p.space.text / 0x1000, p.space.stack / 0x1000, p.kernelStack / 0x1000}
  }

  /** The tables of one space lie in different frames. */
  ghost predicate TablesDiffer(s: Space) {
    && s.l4 / 0x1000 !in {s.l3Lower / 0x1000, s.l1Higher / 0x1000, s.l2Higher / 0x1000, s.l3Higher / 0x1000}
    && s.l3Higher / 0x1000 !in {s.l3Lower / 0x1000, s.l1Higher / 0x1000, s.l2Higher / 0x1000}
    && s.l2Higher / 0x1000 !in {s.l3Lower / 0x1000, s.l1Higher / 0x1000}
    && s.l1Higher / 0x1000 != s.l3Lower / 0x1000
  }

  /** All eight frames of the process differ. */
  ghost predicate OwnFrames(p: Process) {
    && Frames(p.space) && IsFrame(p.kernelStack) && TablesDiffer(p.space)
    && p.space.text / 0x1000 !in TableFrames(p.space)
    && p.space.stack / 0x1000 !in TableFrames(p.space) + {p.space.text / 0x1000}
    && p.kernelStack / 0x1000 !in TableFrames(p.space) + {p.space.text / 0x1000, p.space.stack / 0x1000}
  }

  lemma OwnFramesDiffer(p: Process, i: nat, j: nat)
    requires OwnFrames(p) && i < j < 8
    ensures Owned(p)[i] != Owned(p)[j] && Owned(p)[i] / 0x1000 in Pages(p) && Owned(p)[j] / 0x1000 in Pages(p)
  {
  }

  lemma OwnedPages(p: Process, i: nat)
    requires OwnFrames(p) && i < 8
    ensures IsFrame(Owned(p)[i]) && Owned(p)[i] / 0x1000 in Pages(p)
  {
  }

  /** A process made of free frames joins without sharing any. */
  lemma JoinSeparate(ps: seq<Process>, child: Process, free: set<nat>)
    requires Separate(ps) && OwnFrames(child) && Pages(child) <= free
    requires NoneOwned(ps, free)
    ensures Separate(ps + [child]) && NoneOwned(ps + [child], free - Pages(child))
  {
    var more, n := ps + [child], 8 * |ps|;
    forall i: nat | i < n + 8
      ensures FrameOf(more, i) == if i < n then FrameOf(ps, i) else Owned(child)[i - n]
    {
      if i >= n {
        OwnedFrames(more, |ps|, i - n);
      }
    }
    forall i: nat | i < 8 ensures IsFrame(Owned(child)[i]) && Owned(child)[i] / 0x1000 in Pages(child) {
      OwnedPages(child, i);
    }
    forall i: nat, j: nat | i < j < n + 8 ensures FrameOf(more, i) != FrameOf(more, j) {
      if i >= n {
        OwnFramesDiffer(child, i - n, j - n);
      }
    }
  }

  /** The pages of the processes that exist are not among those of a new one. */
  lemma OthersUntouched(ps: seq<Process>, free: set<nat>, l: nat, i: nat)
    requires l < |ps| && i < 8 && NoneOwned(ps, free)
    ensures Owned(ps[l])[i] / 0x1000 !in free
  {
    OwnedFrames(ps, l, i);
    assert FrameOf(ps, 8 * l + i) / 0x1000 !in free;
  }

  /** The 4096 bytes of m at a are those of n at b. */
  ghost predicate SamePage(m: seq<Byte>, a: nat, n: seq<Byte>, b: nat) {
    && a + 0x1000 <= |m| && b + 0x1000 <= |n|
    && forall x :: a <= x < a + 0x1000 ==> m[x] == n[x - a + b]
  }

  lemma SamePageKeeps(m: seq<Byte>, k: seq<Byte>, a: nat, n: seq<Byte>, b: nat, touched: set<nat>)
    requires SamePage(m, a, n, b) && a % 0x1000 == 0 && Changed(m, k, touched) && a / 0x1000 !in touched
    ensures SamePage(k, a, n, b)
  {
  }

  /** User mode of p in m and of q in n reach the same addresses and see the same bytes. */
  ghost predicate SameView(m: seq<Byte>, p: Process, n: seq<Byte>, q: Process) {
    && |m| == |n| == SPACE && Frames(p.space) && Frames(q.space) && Built(m, p.space) && Built(n, q.space)
    && (forall a: Word :: UserAllowed(m, a, p.space.l4) <==> UserAllowed(n, a, q.space.l4))
    && (forall a: Word :: UserWritable(m, a, p.space.l4) <==> UserWritable(n, a, q.space.l4))
    && (forall a: Word :: a >= TEXT ==> UserByte(m, p, a) == UserByte(n, q, a))
  }

  /** No process owns a page of `free`. */
  ghost predicate NoneOwned(ps: seq<Process>, free: set<nat>) {
    forall i: nat :: i < 8 * |ps| ==> FrameOf(ps, i) / 0x1000 !in free
  }

  lemma SamePageAt(m: seq<Byte>, a: nat, n: seq<Byte>, b: nat, offset: nat)
    requires SamePage(m, a, n, b) && offset < 0x1000
    ensures m[a + offset] == n[b + offset]
  {
  }

  lemma SameByte(m: seq<Byte>, p: Process, n: seq<Byte>, q: Process, a: Word)
    requires |m| == |n| == SPACE && Frames(p.space) && Frames(q.space) && Built(m, p.space) && Built(n, q.space)
    requires SamePage(m, p.space.text, n, q.space.text) && SamePage(m, p.space.stack, n, q.space.stack) && a >= TEXT
    ensures UserByte(m, p, a) == UserByte(n, q, a)
  {
    UserFrame(m, p, a);
    UserFrame(n, q, a);
    SamePageAt(m, Owned(p)[Hit(a)], n, Owned(q)[Hit(a)], a % 0x1000);
  }

  lemma SameFramesSameView(m: seq<Byte>, p: Process, n: seq<Byte>, q: Process)
    requires |m| == |n| == SPACE && Frames(p.space) && Frames(q.space) && Built(m, p.space) && Built(n, q.space)
    requires SamePage(m, p.space.text, n, q.space.text) && SamePage(m, p.space.stack, n, q.space.stack)
    ensures SameView(m, p, n, q)
  {
    forall a: Word
      ensures UserAllowed(m, a, p.space.l4) <==> UserAllowed(n, a, q.space.l4)
      ensures UserWritable(m, a, p.space.l4) <==> UserWritable(n, a, q.space.l4)
    {
      BuiltMeaning(m, p.space, a);
      BuiltMeaning(n, q.space, a);
    }
    forall a: Word | a >= TEXT ensures UserByte(m, p, a) == UserByte(n, q, a) {
      SameByte(m, p, n, q, a);
    }
  }

  /** A process that exists keeps its tables and all its bytes while only free frames change. */
  lemma BystanderKeeps(m: seq<Byte>, n: seq<Byte>, ps: seq<Process>, free: set<nat>, touched: set<nat>, l: nat)
    requires AllBuilt(m, ps) && l < |ps| && Changed(m, n, touched) && touched <= free && NoneOwned(ps, free)
    ensures SameView(m, ps[l], n, ps[l])
  {
    var f := Owned(ps[l]);
    forall i: nat | i < 8 ensures f[i] / 0x1000 !in touched {
      OthersUntouched(ps, free, l, i);
    }
    assert f[0] / 0x1000 !in touched && f[1] / 0x1000 !in touched && f[2] / 0x1000 !in touched;
    assert f[3] / 0x1000 !in touched && f[4] / 0x1000 !in touched;
    assert f[5] / 0x1000 !in touched && f[6] / 0x1000 !in touched;
    BuiltKeeps(m, n, ps[l].space, touched);
    SameFramesSameView(m, ps[l], n, ps[l]);
  }

  lemma SamePageFrom(k: seq<Byte>, a: nat, m: seq<Byte>, n: seq<Byte>, b: nat, touched: set<nat>)
    requires SamePage(k, a, n, b) && b % 0x1000 == 0 && Changed(m, n, touched) && b / 0x1000 !in touched
    ensures SamePage(k, a, m, b)
  {
  }

  /** Three page copies followed by building the tables: the copies survive. */
  lemma CopiesSurvive(m0: seq<Byte>, m1: seq<Byte>, m2: seq<Byte>, m3: seq<Byte>, m4: seq<Byte>, child: Process,
                      text: nat, kernelStack: nat, stack: nat)
    requires OwnFrames(child) && IsFrame(text) && IsFrame(kernelStack) && IsFrame(stack)
    requires text / 0x1000 !in Pages(child) && kernelStack / 0x1000 !in Pages(child) && stack / 0x1000 !in Pages(child)
    requires SamePage(m1, child.space.text, m0, text) && Changed(m0, m1, {child.space.text / 0x1000})
    requires SamePage(m2, child.kernelStack, m1, kernelStack) && Changed(m1, m2, {child.kernelStack / 0x1000})
    requires SamePage(m3, child.space.stack, m2, stack) && Changed(m2, m3, {child.space.stack / 0x1000})
    requires Changed(m3, m4, TableFrames(child.space))
    ensures SamePage(m4, child.space.text, m0, text) && SamePage(m4, child.space.stack, m0, stack)
    ensures SamePage(m4, child.kernelStack, m0, kernelStack)
    ensures Changed(m0, m4, Pages(child))
  {
    var t, k, u := {child.space.text / 0x1000}, {child.kernelStack / 0x1000}, {child.space.stack / 0x1000};
    var tables := TableFrames(child.space);
    assert t <= Pages(child) && k <= Pages(child) && u <= Pages(child);
    ChangedTwice(m2, m3, m4, u, tables);
    ChangedTwice(m1, m2, m4, k, u + tables);
    ChangedTwice(m0, m1, m4, t, k + (u + tables));
    ChangedTwice(m0, m1, m2, t, k);
    assert t + (k + (u + tables)) == Pages(child);
    SamePageKeeps(m1, m4, child.space.text, m0, text, k + (u + tables));
    SamePageFrom(m2, child.kernelStack, m0, m1, kernelStack, t);
    SamePageKeeps(m2, m4, child.kernelStack, m0, kernelStack, u + tables);
    SamePageFrom(m3, child.space.stack, m0, m2, stack, t + k);
    SamePageKeeps(m3, m4, child.space.stack, m0, stack, tables);
  }

  /** The frames CopyProcessMemory takes, in its order. */
  lemma EightTaken(f0: set<nat>, f1: set<nat>, f2: set<nat>, f3: set<nat>, f4: set<nat>, child: Process)
    requires Frames(child.space) && IsFrame(child.kernelStack) && TablesDiffer(child.space)
    requires child.space.stack / 0x1000 in f0 && f1 == f0 - {child.space.stack / 0x1000}
    requires child.kernelStack / 0x1000 in f1 && f2 == f1 - {child.kernelStack / 0x1000}
    requires child.space.text / 0x1000 in f2 && f3 == f2 - {child.space.text / 0x1000}
    requires TableFrames(child.space) <= f3 && f4 == f3 - TableFrames(child.space)
    ensures OwnFrames(child) && Pages(child) <= f0 && f4 == f0 - Pages(child)
  {
  }

  /** The frames ProcessInit takes, in its order. */
  lemma EightTakenInit(f0: set<nat>, f1: set<nat>, f2: set<nat>, f3: set<nat>, f4: set<nat>, p: Process)
    requires Frames(p.space) && IsFrame(p.kernelStack) && TablesDiffer(p.space)
    requires p.space.text / 0x1000 in f0 && f1 == f0 - {p.space.text / 0x1000}
    requires p.kernelStack / 0x1000 in f1 && f2 == f1 - {p.kernelStack / 0x1000}
    requires p.space.stack / 0x1000 in f2 && f3 == f2 - {p.space.stack / 0x1000}
    requires TableFrames(p.space) <= f3 && f4 == f3 - TableFrames(p.space)
    ensures OwnFrames(p) && Pages(p) <= f0 && f4 == f0 - Pages(p)
  {
  }

  /** Fork: a child made of free frames, with built tables and copies of the parent's text
      and stack pages, joins the processes. Nobody shares a frame, every table means what it
      should, the child sees the parent's bytes at every user address, and nobody who
      existed sees any change. */
  lemma ForkCopiesAndIsolates(m: seq<Byte>, n: seq<Byte>, ps: seq<Process>, k: nat, child: Process, free: set<nat>)
    requires |n| == SPACE && AllBuilt(m, ps) && k < |ps| && NoneOwned(ps, free)
    requires OwnFrames(child) && Pages(child) <= free && Built(n, child.space) && Changed(m, n, Pages(child))
    requires Frames(ps[k].space)
    requires SamePage(n, child.space.text, m, ps[k].space.text) && SamePage(n, child.space.stack, m, ps[k].space.stack)
    ensures AllBuilt(n, ps + [child]) && NoneOwned(ps + [child], free - Pages(child))
    ensures SameView(n, child, m, ps[k])
    ensures forall l: nat :: l < |ps| ==> SameView(m, ps[l], n, ps[l])
  {
    var more := ps + [child];
    JoinSeparate(ps, child, free);
    forall l: nat | l < |ps| ensures SameView(m, ps[l], n, ps[l]) {
      BystanderKeeps(m, n, ps, free, Pages(child), l);
    }
    forall l: nat | l < |more| ensures Frames(more[l].space) && Built(n, more[l].space) {
      assert l < |ps| ==> SameView(m, ps[l], n, more[l]);
    }
    SameFramesSameView(n, child, m, ps[k]);
  }

  /** The page at a is the page at b but for the eight bytes at `skip`. */
  ghost predicate SamePageBut(m: seq<Byte>, a: nat, n: seq<Byte>, b: nat, skip: nat) {
    && a + 0x1000 <= |m| && b + 0x1000 <= |n|
    && forall x :: a <= x < a + 0x1000 && !(skip <= x < skip + 8) ==> m[x] == n[x - a + b]
  }
}
