/** Fork without CLONE_VM (process.c): CopyProcessMemory, SetUpPageTable and the non-shared
    path of DoFork, over physical memory and the page-frame allocator. */
module Fork {
  import opened Util
  import opened Buddy
  import opened Memory
  import opened Paging
  import opened PageTables
  import opened AddressSpaces
  import opened ForkRuns
  import opened PageFrames

  /** struct ProcessMemory. */
  datatype ProcessMemory = ProcessMemory(userStack: nat, kernelStack: nat, text: nat, l4PageTableBase: nat)

  function MemoryOf(p: Process): ProcessMemory {
    ProcessMemory(p.space.stack, p.kernelStack, p.space.text, p.space.l4)
  }

  /** One page more is free exactly when some page is. */
  lemma OnePage(h: Heap, usable: set<nat>, max: nat)
    requires Inv(h, usable, max)
    ensures CeilLog2(1) == 0
    ensures Allocate(h, 0).None? <==> FreeUnits(usable, h.live) == {}
    ensures Allocate(h, 0).Some? ==>
              var (g, p) := Allocate(h, 0).value;
              p in FreeUnits(usable, h.live) && FreeUnits(usable, g.live) == FreeUnits(usable, h.live) - {p}
  {
    var free := FreeUnits(usable, h.live);
    AllocateCorrect(h, usable, max, 0);
    forall p: nat ensures Aligned(p, 0) && (WhollyFree(free, p, 0) <==> p in free) && Units(p, 0) == {p} {
      assert Within(p, p, 0);
    }
  }

  class Machine {
    const mem: array<Byte>
    const frames: PageFrameAllocator
    ghost var processes: seq<Process>

    constructor (memory: array<Byte>, allocator: PageFrameAllocator)
      ensures mem == memory && frames == allocator && processes == []
    {
      mem, frames, processes := memory, allocator, [];
    }

    /** Pages the allocator can still hand out. */
    ghost function Free(): set<nat>
      requires frames.memoryMap.Length == frames.total + 1
      reads frames, frames.memoryMap
    {
      FreeUnits(frames.Usable(), frames.heap.live)
    }

    /** The allocator works, page 0 is reserved (an address 0 means failure), and every frame
        lies where the kernel's identity mapping reaches it. */
    ghost predicate Ready()
      reads mem, frames, frames.memoryMap, frames.pageFrameOrder
    {
      && mem.Length == SPACE
      && frames.Valid()
      && 0 !in frames.Usable()
      && frames.total * 0x1000 <= IDENTITY
    }

    /** Besides: the processes' tables are built, and they own frames nobody else has, page 0
        not among them. */
    ghost predicate Valid()
      reads this, mem, frames, frames.memoryMap, frames.pageFrameOrder
    {
      Ready() && Sound(Now()) && NoneOwned(processes, {0})
    }

    ghost function Now(): World
      requires frames.memoryMap.Length == frames.total + 1
      reads this, mem, frames, frames.memoryMap
    {
      World(mem[..], processes, Free())
    }

    method AllocateFrame() returns (address: nat)
      requires Ready()
      modifies frames`heap, frames.memoryMap, frames.pageFrameOrder
      ensures Ready() && mem[..] == old(mem[..]) && IsFrame(address)
      ensures address == 0 <==> old(Free()) == {}
      ensures Free() == old(Free()) - {address / 0x1000} && (address != 0 ==> address / 0x1000 in old(Free()))
      ensures |Free()| == if address == 0 then 0 else |old(Free())| - 1
    {
      OnePage(frames.heap, frames.Usable(), frames.maxOrder);
      address := frames.AllocatePageFrames(1);
      assert address % 0x1000 == 0;
    }

    /** Three frames one after the other, each 0 if none is left by then. */
    method ThreeFrames() returns (first: nat, second: nat, third: nat, ghost f1: set<nat>, ghost f2: set<nat>)
      requires Ready()
      modifies frames`heap, frames.memoryMap, frames.pageFrameOrder
      ensures Ready() && mem[..] == old(mem[..]) && Free() <= old(Free())
      ensures |Free()| == if |old(Free())| < 3 then 0 else |old(Free())| - 3
      ensures IsFrame(first) && IsFrame(second) && IsFrame(third)
      ensures first / 0x1000 in old(Free()) + {0} && second / 0x1000 in old(Free()) + {0}
      ensures third / 0x1000 in old(Free()) + {0}
      ensures f1 == old(Free()) - {first / 0x1000} && f2 == f1 - {second / 0x1000} && Free() == f2 - {third / 0x1000}
      ensures |old(Free())| >= 3 ==> first / 0x1000 in old(Free()) && second / 0x1000 in f1 && third / 0x1000 in f2
    {
      first := AllocateFrame();
      f1 := Free();
      second := AllocateFrame();
      f2 := Free();
      third := AllocateFrame();
      ThreeTaken(old(Free()), f1, f2, Free(), first / 0x1000, second / 0x1000, third / 0x1000);
    }

    /** Allocate a frame and fill it as a page table; 0 if no page is free. Since m0 nothing
        has changed outside f0. */
    method NewTable(kind: Kind, ghost count: nat, ghost m0: seq<Byte>, ghost f0: set<nat>) returns (table: nat)
      requires Ready() && KindOk(kind) && count == |Free()|
      requires Changed(m0, mem[..], f0) && Free() <= f0
      modifies mem, frames`heap, frames.memoryMap, frames.pageFrameOrder
      ensures Ready() && Changed(m0, mem[..], f0) && Free() <= f0
      ensures table == 0 <==> count == 0
      ensures table == 0 ==> Free() == {} && mem[..] == old(mem[..])
      ensures table != 0 ==>
                && IsFrame(table) && table / 0x1000 in old(Free()) && Free() == old(Free()) - {table / 0x1000}
                && |Free()| == count - 1
                && Table(mem[..], table, Entries(kind))
                && Changed(old(mem[..]), mem[..], {table / 0x1000})
    {
      table := AllocateFrame();
      if table != 0 {
        FillTable(mem, table, kind);
        ChangedWithin(m0, old(mem[..]), mem[..], table / 0x1000, f0);
      }
    }

    method SetUpPageTable(textSegmentPageFrame: nat, processStackBase: nat) returns (l4: nat, ghost space: Space)
      requires Ready() && IsFrame(textSegmentPageFrame) && processStackBase + 8 >= 0x1000
      requires IsFrame(processStackBase + 8 - 0x1000)
      modifies mem, frames`heap, frames.memoryMap, frames.pageFrameOrder
      ensures Ready()
      ensures l4 == 0 <==> |old(Free())| < 5
      ensures l4 == 0 ==> Free() == {} && Changed(old(mem[..]), mem[..], old(Free()))
      ensures l4 != 0 ==>
                && Frames(space) && space.l4 == l4
                && space.text == textSegmentPageFrame && space.stack == processStackBase + 8 - 0x1000
                && Built(mem[..], space) && TablesDiffer(space)
                && TableFrames(space) <= old(Free()) && Free() == old(Free()) - TableFrames(space)
                && Changed(old(mem[..]), mem[..], TableFrames(space))
    {
      var stack := processStackBase + 8 - 0x1000;
      space := Space(0, 0, 0, 0, 0, 0, 0);
      ghost var n, m0, f0 := |Free()|, mem[..], Free();
      var l3Lower := NewTable(Lower, n, m0, f0);
      if l3Lower == 0 {
        return 0, space;
      }
      ghost var m1, f1 := mem[..], Free();
      var l1Higher := NewTable(Leaves(textSegmentPageFrame, stack), n - 1, m0, f0);
      if l1Higher == 0 {
        return 0, space;
      }
      ghost var m2, f2 := mem[..], Free();
      var l2Higher := NewTable(Upper(l1Higher), n - 2, m0, f0);
      if l2Higher == 0 {
        return 0, space;
      }
      ghost var m3, f3 := mem[..], Free();
      var l3Higher := NewTable(Upper(l2Higher), n - 3, m0, f0);
      if l3Higher == 0 {
        return 0, space;
      }
      ghost var m4, f4 := mem[..], Free();
      l4 := NewTable(Top(l3Lower, l3Higher), n - 4, m0, f0);
      if l4 == 0 {
        return 0, space;
      }
      space := Space(l4, l3Lower, l3Higher, l2Higher, l1Higher, textSegmentPageFrame, stack);
      FiveTables(m0, m1, m2, m3, m4, mem[..], space);
      assert TableFrames(space) <= f0 && Free() == f0 - TableFrames(space) by {
        FiveTaken(f0, f1, f2, f3, f4, Free(), space);
      }
    }

    /** memcpy of one page into another. */
    method CopyPage(dst: nat, src: nat)
      requires Ready() && IsFrame(dst) && IsFrame(src) && dst != src
      modifies mem
      ensures Ready() && Free() == old(Free())
      ensures SamePage(mem[..], dst, old(mem[..]), src)
      ensures Changed(old(mem[..]), mem[..], {dst / 0x1000})
    {
      ghost var before := mem[..];
      Memcpy(mem, dst, src, PAGE_SIZE);
      OnlyInside(before, mem[..], dst, dst, dst + 0x1000);
      forall x | dst <= x < dst + 0x1000 ensures mem[..][x] == before[x - dst + src] {
        assert CopySource(dst, src, PAGE_SIZE, x - dst) == x - dst;
      }
    }

    /** With fewer than eight free pages the copy has no page table, and what was to be copied
        into a page it did not get went into page 0. */
    method CopyProcessMemory(original: ProcessMemory, ghost k: nat) returns (pm: ProcessMemory, ghost child: Process)
      requires Valid() && k < |processes| && original == MemoryOf(processes[k])
      modifies mem, frames`heap, frames.memoryMap, frames.pageFrameOrder
      ensures Ready()
      ensures pm.l4PageTableBase == 0 <==> |old(Free())| < 8
      ensures pm.l4PageTableBase == 0 ==>
                && Free() == {} && Changed(old(mem[..]), mem[..], old(Free()) + {0})
                && IsFrame(pm.kernelStack) && pm.kernelStack / 0x1000 in old(Free()) + {0}
      ensures pm.l4PageTableBase != 0 ==>
                && pm == MemoryOf(child) && OwnFrames(child)
                && Pages(child) <= old(Free()) && Free() == old(Free()) - Pages(child)
                && Changed(old(mem[..]), mem[..], Pages(child)) && Built(mem[..], child.space)
                && SamePage(mem[..], child.space.text, old(mem[..]), original.text)
                && SamePage(mem[..], child.space.stack, old(mem[..]), original.userStack)
                && SamePage(mem[..], child.kernelStack, old(mem[..]), original.kernelStack)
    {
      ghost var m0, f0 := mem[..], Free();
      ParentOutside(k, f0);
      ParentOutside(k, {0});
      var userStack, kernelStack, text, f1, f2 := ThreeFrames();
      ghost var f3 := Free();
      Elsewhere(f0, userStack, original.userStack);
      Elsewhere(f0, kernelStack, original.kernelStack);
      Elsewhere(f0, text, original.text);
      ghost var m1, m2 := CopyPages(text, kernelStack, userStack, original);
      ghost var m3 := mem[..];
      var l4, space := BuildFor(text, userStack);
      pm := ProcessMemory(userStack, kernelStack, text, l4);
      child := Process(space, kernelStack);
      if l4 == 0 {
        CopiesLost(m0, m1, m2, m3, mem[..], f0, f3, text / 0x1000, kernelStack / 0x1000, userStack / 0x1000);
      } else {
        EightTaken(f0, f1, f2, f3, Free(), child);
        CopiesSurvive(m0, m1, m2, m3, mem[..], child, original.text, original.kernelStack, original.userStack);
      }
    }

    /** The three calls of memcpy, in their order. */
    method CopyPages(text: nat, kernelStack: nat, userStack: nat, original: ProcessMemory)
      returns (ghost m1: seq<Byte>, ghost m2: seq<Byte>)
      requires Ready() && IsFrame(text) && IsFrame(kernelStack) && IsFrame(userStack)
      requires IsFrame(original.text) && IsFrame(original.kernelStack) && IsFrame(original.userStack)
      requires text != original.text && kernelStack != original.kernelStack && userStack != original.userStack
      modifies mem
      ensures Ready() && Free() == old(Free())
      ensures SamePage(m1, text, old(mem[..]), original.text) && Changed(old(mem[..]), m1, {text / 0x1000})
      ensures SamePage(m2, kernelStack, m1, original.kernelStack) && Changed(m1, m2, {kernelStack / 0x1000})
      ensures SamePage(mem[..], userStack, m2, original.userStack) && Changed(m2, mem[..], {userStack / 0x1000})
    {
      CopyPage(text, original.text);
      m1 := mem[..];
      CopyPage(kernelStack, original.kernelStack);
      m2 := mem[..];
      CopyPage(userStack, original.userStack);
    }

    /** The call of SetUpPageTable, whose second argument is the top of the user stack. */
    method BuildFor(text: nat, userStack: nat) returns (l4: nat, ghost space: Space)
      requires Ready() && IsFrame(text) && IsFrame(userStack)
      modifies mem, frames`heap, frames.memoryMap, frames.pageFrameOrder
      ensures Ready()
      ensures l4 == 0 <==> |old(Free())| < 5
      ensures l4 == 0 ==> Free() == {} && Changed(old(mem[..]), mem[..], old(Free()))
      ensures l4 != 0 ==>
                && Frames(space) && TablesDiffer(space) && Built(mem[..], space)
                && space.l4 == l4 && space.text == text && space.stack == userStack
                && TableFrames(space) <= old(Free()) && Free() == old(Free()) - TableFrames(space)
                && Changed(old(mem[..]), mem[..], TableFrames(space))
    {
      l4, space := SetUpPageTable(text, userStack - 8 + PAGE_SIZE);
    }

    /** DoFork without CLONE_VM: copy the parent's memory, and make the fork return 0 in the
        child by clearing rax in the copied kernel stack. The child can run if and only if
        eight pages were free; whatever happens, nobody who existed notices. */
    method DoFork(parent: ProcessMemory, rsp: nat, ghost k: nat) returns (childMemory: ProcessMemory, childRsp: nat)
      requires Valid() && k < |processes| && parent == MemoryOf(processes[k])
      requires parent.kernelStack <= rsp && rsp + 8 <= parent.kernelStack + 0x1000
      modifies mem, frames`heap, frames.memoryMap, frames.pageFrameOrder, `processes
      ensures Valid()
      ensures childMemory.l4PageTableBase == 0 <==> |old(Free())| < 8
      ensures forall l: nat :: l < |old(processes)| ==>
                SameView(old(mem[..]), old(processes)[l], mem[..], old(processes)[l])
      ensures childMemory.l4PageTableBase == 0 ==> processes == old(processes) && Free() == {}
      ensures childMemory.l4PageTableBase != 0 ==>
                && Forks(old(Now()), k, Now())
                && SameView(mem[..], processes[|old(processes)|], old(mem[..]), old(processes)[k])
                && childMemory == MemoryOf(processes[|old(processes)|])
                && SamePageBut(mem[..], childMemory.kernelStack, old(mem[..]), parent.kernelStack, childRsp)
      ensures childRsp - childMemory.kernelStack == rsp - parent.kernelStack
      ensures childRsp + 8 <= mem.Length && Load(mem[..], childRsp) == 0
    {
      ghost var w, child := Now(), processes[k];
      ParentOutside(k, w.free);
      childMemory, child := CopyProcessMemory(parent, k);
      childRsp := childMemory.kernelStack + (rsp - parent.kernelStack);
      if childMemory.l4PageTableBase == 0 {
        ClearLost(childRsp, childMemory.kernelStack, w);
      } else {
        ClearRax(childRsp, child, w, k);
      }
    }

    /** The part of ProcessInit that allocates the first process's own memory. */
    method FirstMemory() returns (pm: ProcessMemory, ghost p: Process)
      requires Ready()
      modifies mem, frames`heap, frames.memoryMap, frames.pageFrameOrder
      ensures Ready()
      ensures pm.l4PageTableBase == 0 <==> |old(Free())| < 8
      ensures pm.l4PageTableBase == 0 ==> Free() == {}
      ensures pm.l4PageTableBase != 0 ==>
                && pm == MemoryOf(p) && OwnFrames(p) && Built(mem[..], p.space)
                && Pages(p) <= old(Free()) && Free() == old(Free()) - Pages(p)
                && Changed(old(mem[..]), mem[..], TableFrames(p.space))
    {
      ghost var f0 := Free();
      var text, kernelStack, userStack, f1, f2 := ThreeFrames();
      ghost var f3 := Free();
      var l4, space := BuildFor(text, userStack);
      pm := ProcessMemory(userStack, kernelStack, text, l4);
      p := Process(space, kernelStack);
      if l4 != 0 {
        EightTakenInit(f0, f1, f2, f3, Free(), p);
      }
    }

    /** Boot: from free frames to the first state whose processes are sound; the first process
        has no page table if and only if fewer than eight pages are free. */
    method ProcessInit() returns (pm: ProcessMemory)
      requires Ready() && processes == []
      modifies mem, frames`heap, frames.memoryMap, frames.pageFrameOrder, `processes
      ensures Valid()
      ensures pm.l4PageTableBase == 0 <==> |old(Free())| < 8
      ensures pm.l4PageTableBase == 0 ==> processes == [] && Free() == {}
      ensures pm.l4PageTableBase != 0 ==>
                && |processes| == 1 && pm == MemoryOf(processes[0])
                && Pages(processes[0]) <= old(Free()) && Free() == old(Free()) - Pages(processes[0])
                && Changed(old(mem[..]), mem[..], TableFrames(processes[0].space))
    {
      ghost var free, p := Free(), Process(Space(0, 0, 0, 0, 0, 0, 0), 0);
      pm, p := FirstMemory();
      if pm.l4PageTableBase != 0 {
        FirstSound(mem[..], p, free);
        ZeroStaysOut([], p);
        assert [] + [p] == [p];
        processes := [p];
        assert Now() == World(mem[..], [p], free - Pages(p));
      }
    }

    /** Clearing rax in a kernel stack that no process has. */
    method ClearLost(childRsp: nat, kernelStack: nat, ghost w: World)
      requires Ready() && Sound(w) && NoneOwned(w.processes, {0}) && w.processes == processes && Free() == {}
      requires IsFrame(kernelStack) && kernelStack / 0x1000 in w.free + {0}
      requires kernelStack <= childRsp && childRsp + 8 <= kernelStack + 0x1000
      requires Changed(w.memory, mem[..], w.free + {0})
      modifies mem
      ensures Valid() && Free() == {} && Load(mem[..], childRsp) == 0
      ensures forall l: nat :: l < |w.processes| ==> SameView(w.memory, w.processes[l], mem[..], w.processes[l])
    {
      ghost var before := mem[..];
      Store(mem, childRsp, 0);
      OnlyInside(before, mem[..], kernelStack, childRsp, childRsp + 8);
      ChangedWithin(w.memory, before, mem[..], kernelStack / 0x1000, w.free + {0});
      BystandersKeep(w.memory, mem[..], w.processes, w.free + {0});
    }

    /** Clear rax in the copied kernel stack: with that the child stands. */
    method ClearRax(childRsp: nat, ghost child: Process, ghost w: World, ghost k: nat)
      requires Ready() && Sound(w) && k < |w.processes| && Frames(w.processes[k].space)
      requires w.processes == processes && NoneOwned(processes, {0}) && 0 !in Pages(child)
      requires OwnFrames(child) && Pages(child) <= w.free && Free() == w.free - Pages(child)
      requires Built(mem[..], child.space)
      requires child.kernelStack <= childRsp && childRsp + 8 <= child.kernelStack + 0x1000
      requires Changed(w.memory, mem[..], Pages(child))
      requires SamePage(mem[..], child.space.text, w.memory, w.processes[k].space.text)
      requires SamePage(mem[..], child.space.stack, w.memory, w.processes[k].space.stack)
      requires SamePage(mem[..], child.kernelStack, w.memory, w.processes[k].kernelStack)
      modifies mem, `processes
      ensures Valid() && Forks(w, k, Now()) && processes == w.processes + [child]
      ensures SameView(mem[..], child, w.memory, w.processes[k])
      ensures forall l: nat :: l < |w.processes| ==> SameView(w.memory, w.processes[l], mem[..], w.processes[l])
      ensures Load(mem[..], childRsp) == 0
      ensures SamePageBut(mem[..], child.kernelStack, w.memory, w.processes[k].kernelStack, childRsp)
    {
      ghost var copied := mem[..];
      Store(mem, childRsp, 0);
      OnlyInside(copied, mem[..], child.kernelStack, childRsp, childRsp + 8);
      ForkDone(w, k, copied, mem[..], child, childRsp);
      ZeroStaysOut(w.processes, child);
      processes := processes + [child];
      assert Now() == World(mem[..], w.processes + [child], w.free - Pages(child));
    }

    lemma ParentOutside(k: nat, free: set<nat>)
      requires k < |processes| && Separate(processes)
      requires NoneOwned(processes, free)
      ensures var p := processes[k];
              && IsFrame(p.space.text) && IsFrame(p.space.stack) && IsFrame(p.kernelStack)
              && p.space.text / 0x1000 !in free && p.space.stack / 0x1000 !in free && p.kernelStack / 0x1000 !in free
    {
      SpaceFrames(processes, k);
      OthersUntouched(processes, free, k, 5);
      OthersUntouched(processes, free, k, 6);
      OthersUntouched(processes, free, k, 7);
    }
  }

  /** A write inside one frame changes only that frame. */
  lemma OnlyInside(m: seq<Byte>, n: seq<Byte>, frame: nat, lo: nat, hi: nat)
    requires |m| == |n| && IsFrame(frame) && frame <= lo <= hi <= frame + 0x1000
    requires forall i :: 0 <= i < |m| && !(lo <= i < hi) ==> n[i] == m[i]
    ensures Changed(m, n, {frame / 0x1000})
    ensures forall i :: frame <= i < frame + 0x1000 <= |m| && !(lo <= i < hi) ==> n[i] == m[i]
  {
  }

  lemma CopiedBut(n: seq<Byte>, copied: seq<Byte>, m: seq<Byte>, a: nat, b: nat, skip: nat)
    requires SamePageBut(n, a, copied, a, skip) && SamePage(copied, a, m, b)
    ensures SamePageBut(n, a, m, b, skip)
  {
  }

  lemma BystandersKeep(m: seq<Byte>, n: seq<Byte>, ps: seq<Process>, free: set<nat>)
    requires AllBuilt(m, ps) && NoneOwned(ps, free) && Changed(m, n, free)
    ensures AllBuilt(n, ps)
    ensures forall l: nat :: l < |ps| ==> SameView(m, ps[l], n, ps[l])
  {
    forall l: nat | l < |ps| ensures SameView(m, ps[l], n, ps[l]) {
      BystanderKeeps(m, n, ps, free, free, l);
    }
  }

  /** A child of frames other than page 0 leaves page 0 to nobody. */
  lemma ZeroStaysOut(ps: seq<Process>, child: Process)
    requires Separate(ps) && OwnFrames(child) && 0 !in Pages(child) && NoneOwned(ps, {0})
    requires NoneOwned(ps, Pages(child))
    ensures NoneOwned(ps + [child], {0})
  {
    JoinSeparate(ps, child, Pages(child) + {0});
    assert Pages(child) + {0} - Pages(child) == {0};
  }

  lemma ChangedWithin(m: seq<Byte>, n: seq<Byte>, k: seq<Byte>, p: nat, frames: set<nat>)
    requires Changed(m, n, frames) && Changed(n, k, {p}) && p in frames
    ensures Changed(m, k, frames)
  {
  }

  /** Taking three elements one after the other, as far as there are any. */
  lemma ThreeTaken(f0: set<nat>, f1: set<nat>, f2: set<nat>, f3: set<nat>, a: nat, b: nat, c: nat)
    requires f1 == f0 - {a} && f2 == f1 - {b} && f3 == f2 - {c}
    requires if f0 == {} then a == 0 else a in f0
    requires if f1 == {} then b == 0 else b in f1
    requires if f2 == {} then c == 0 else c in f2
    ensures a in f0 + {0} && b in f0 + {0} && c in f0 + {0}
    ensures |f3| == if |f0| < 3 then 0 else |f0| - 3
    ensures |f0| >= 3 ==> a in f0 && b in f1 && c in f2
  {
    TakenOne(f0, a, f1);
    TakenOne(f1, b, f2);
    TakenOne(f2, c, f3);
  }

  lemma TakenOne(f: set<nat>, a: nat, rest: set<nat>)
    requires rest == f - {a} && if f == {} then a == 0 else a in f
    ensures |rest| == if |f| == 0 then 0 else |f| - 1
    ensures f == {} <==> |f| == 0
  {
  }

  lemma Elsewhere(free: set<nat>, address: nat, src: nat)
    requires address / 0x1000 in free + {0} && src / 0x1000 !in free && src / 0x1000 !in {0}
    ensures address != src
  {
  }

  /** Three page copies and some tables, all in free pages or page 0. */
  lemma CopiesLost(m0: seq<Byte>, m1: seq<Byte>, m2: seq<Byte>, m3: seq<Byte>, m4: seq<Byte>,
                   free: set<nat>, rest: set<nat>, text: nat, kernelStack: nat, stack: nat)
    requires Changed(m0, m1, {text}) && Changed(m1, m2, {kernelStack})
    requires Changed(m2, m3, {stack}) && Changed(m3, m4, rest)
    requires rest <= free && text in free + {0} && kernelStack in free + {0} && stack in free + {0}
    ensures Changed(m0, m4, free + {0})
  {
  }

  lemma FirstSound(m: seq<Byte>, p: Process, free: set<nat>)
    requires |m| == SPACE && OwnFrames(p) && Pages(p) <= free && Built(m, p.space)
    ensures Sound(World(m, [p], free - Pages(p)))
  {
  }

  /** The copies, followed by a write inside the child's kernel stack, are a fork. */
  lemma ForkDone(w: World, k: nat, copied: seq<Byte>, n: seq<Byte>, child: Process, skip: nat)
    requires Sound(w) && k < |w.processes| && Frames(w.processes[k].space)
    requires |copied| == SPACE && OwnFrames(child) && Pages(child) <= w.free && Built(copied, child.space)
    requires Changed(w.memory, copied, Pages(child)) && Changed(copied, n, {child.kernelStack / 0x1000})
    requires SamePage(copied, child.space.text, w.memory, w.processes[k].space.text)
    requires SamePage(copied, child.space.stack, w.memory, w.processes[k].space.stack)
    requires SamePage(copied, child.kernelStack, w.memory, w.processes[k].kernelStack)
    requires SamePageBut(n, child.kernelStack, copied, child.kernelStack, skip)
    ensures var t := World(n, w.processes + [child], w.free - Pages(child));
            Forks(w, k, t) && Sound(t)
    ensures SameView(n, child, w.memory, w.processes[k])
    ensures forall l: nat :: l < |w.processes| ==> SameView(w.memory, w.processes[l], n, w.processes[l])
    ensures SamePageBut(n, child.kernelStack, w.memory, w.processes[k].kernelStack, skip)
  {
    var t := World(n, w.processes + [child], w.free - Pages(child));
    RaxOutside(w.memory, copied, n, child);
    SamePageKeeps(copied, n, child.space.text, w.memory, w.processes[k].space.text, {child.kernelStack / 0x1000});
    SamePageKeeps(copied, n, child.space.stack, w.memory, w.processes[k].space.stack, {child.kernelStack / 0x1000});
    CopiedBut(n, copied, w.memory, child.kernelStack, w.processes[k].kernelStack, skip);
    Forked(w, k, t);
  }

  /** Writing to the child's kernel stack touches neither its tables nor other frames. */
  lemma RaxOutside(m: seq<Byte>, copied: seq<Byte>, n: seq<Byte>, child: Process)
    requires |copied| == SPACE && OwnFrames(child) && Built(copied, child.space)
    requires Changed(m, copied, Pages(child)) && Changed(copied, n, {child.kernelStack / 0x1000})
    ensures Built(n, child.space) && Changed(m, n, Pages(child))
    ensures child.space.text / 0x1000 != child.kernelStack / 0x1000
    ensures child.space.stack / 0x1000 != child.kernelStack / 0x1000
  {
    BuiltKeeps(copied, n, child.space, {child.kernelStack / 0x1000});
    ChangedTwice(m, copied, n, Pages(child), {child.kernelStack / 0x1000});
    assert Pages(child) + {child.kernelStack / 0x1000} == Pages(child);
  }

  lemma FiveTaken(f0: set<nat>, f1: set<nat>, f2: set<nat>, f3: set<nat>, f4: set<nat>, f5: set<nat>, s: Space)
    requires s.l3Lower / 0x1000 in f0 && f1 == f0 - {s.l3Lower / 0x1000}
    requires s.l1Higher / 0x1000 in f1 && f2 == f1 - {s.l1Higher / 0x1000}
    requires s.l2Higher / 0x1000 in f2 && f3 == f2 - {s.l2Higher / 0x1000}
    requires s.l3Higher / 0x1000 in f3 && f4 == f3 - {s.l3Higher / 0x1000}
    requires s.l4 / 0x1000 in f4 && f5 == f4 - {s.l4 / 0x1000}
    ensures TableFrames(s) <= f0 && f5 == f0 - TableFrames(s) && TablesDiffer(s)
  {
  }

  /** Filling distinct frames one after the other leaves all five tables as filled. */
  lemma FiveTables(m0: seq<Byte>, m1: seq<Byte>, m2: seq<Byte>, m3: seq<Byte>, m4: seq<Byte>, m5: seq<Byte>, s: Space)
    requires |m0| == SPACE && Frames(s) && TablesDiffer(s)
    requires Changed(m0, m1, {s.l3Lower / 0x1000}) && Changed(m1, m2, {s.l1Higher / 0x1000})
    requires Changed(m2, m3, {s.l2Higher / 0x1000}) && Changed(m3, m4, {s.l3Higher / 0x1000})
    requires Changed(m4, m5, {s.l4 / 0x1000})
    requires Table(m1, s.l3Lower, Entries(Lower)) && Table(m2, s.l1Higher, Entries(Leaves(s.text, s.stack)))
    requires Table(m3, s.l2Higher, Entries(Upper(s.l1Higher))) && Table(m4, s.l3Higher, Entries(Upper(s.l2Higher)))
    requires Table(m5, s.l4, Entries(Top(s.l3Lower, s.l3Higher)))
    ensures Built(m5, s) && Changed(m0, m5, TableFrames(s))
  {
    var a, b, c := s.l3Lower / 0x1000, s.l1Higher / 0x1000, s.l2Higher / 0x1000;
    var d, e := s.l3Higher / 0x1000, s.l4 / 0x1000;
    ChangedTwice(m3, m4, m5, {d}, {e});
    ChangedTwice(m2, m3, m5, {c}, {d} + {e});
    ChangedTwice(m1, m2, m5, {b}, {c} + ({d} + {e}));
    ChangedTwice(m0, m1, m5, {a}, {b} + ({c} + ({d} + {e})));
    assert {a} + ({b} + ({c} + ({d} + {e}))) == TableFrames(s);
    TableKeeps(m4, m5, s.l3Higher, Entries(Upper(s.l2Higher)), {e});
    TableKeeps(m3, m5, s.l2Higher, Entries(Upper(s.l1Higher)), {d} + {e});
    TableKeeps(m2, m5, s.l1Higher, Entries(Leaves(s.text, s.stack)), {c} + ({d} + {e}));
    TableKeeps(m1, m5, s.l3Lower, Entries(Lower), {b} + ({c} + ({d} + {e})));
  }
}
