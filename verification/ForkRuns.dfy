/** Whole runs of forks and user stores: shared physical memory behaves as if every process
    had two pages of memory to itself. */
module ForkRuns {
  import opened Util
  import opened Memory
  import opened Paging
  import opened PageTables
  import opened AddressSpaces

  datatype World = World(memory: seq<Byte>, processes: seq<Process>, free: set<nat>)

  ghost predicate Sound(w: World) {
    AllBuilt(w.memory, w.processes) && NoneOwned(w.processes, w.free)
  }

  datatype Event = Forking(parent: nat) | Storing(process: nat, address: Word, value: Byte)

  /** A child of free frames joins; only those frames change, and they hold built tables and
      copies of the parent's two user pages. */
  ghost predicate Forks(w: World, k: nat, t: World) {
    && k < |w.processes| && |t.memory| == SPACE && |t.processes| == |w.processes| + 1
    && t.processes[..|w.processes|] == w.processes
    && var parent, child := w.processes[k], t.processes[|w.processes|];
       && OwnFrames(child) && Frames(parent.space) && Pages(child) <= w.free && t.free == w.free - Pages(child)
       && Built(t.memory, child.space) && Changed(w.memory, t.memory, Pages(child))
       && SamePage(t.memory, child.space.text, w.memory, parent.space.text)
       && SamePage(t.memory, child.space.stack, w.memory, parent.space.stack)
  }

  ghost predicate Stores(w: World, k: nat, a: Word, v: Byte, t: World) {
    && k < |w.processes| && Frames(w.processes[k].space)
    && |w.memory| == SPACE && Built(w.memory, w.processes[k].space)
    && UserWritable(w.memory, a, w.processes[k].space.l4)
    && t == w.(memory := UserStore(w.memory, w.processes[k], a, v))
  }

  ghost predicate Step(w: World, e: Event, t: World) {
    match e
    case Forking(k) => Forks(w, k, t)
    case Storing(k, a, v) => Stores(w, k, a, v, t)
  }

  /** The 8192 bytes user mode of process p sees, from TEXT up. */
  ghost function View(m: seq<Byte>, p: Process): (v: seq<Byte>)
    requires |m| == SPACE && Frames(p.space) && Built(m, p.space)
    ensures |v| == 0x2000 && forall i: nat :: i < 0x2000 ==> v[i] == UserByte(m, p, TEXT + i)
  {
    seq<Byte>(0x2000, i requires 0 <= i < 0x2000 => UserByte(m, p, TEXT + i))
  }

  ghost function Views(w: World): (v: seq<seq<Byte>>)
    requires Sound(w)
    ensures |v| == |w.processes| && forall l: nat :: l < |v| ==> |v[l]| == 0x2000
  {
    seq<seq<Byte>>(|w.processes|, l requires 0 <= l < |w.processes| => View(w.memory, w.processes[l]))
  }

  function Written(view: seq<Byte>, i: nat, v: Byte): (r: seq<Byte>)
    requires i < |view|
    ensures |r| == |view| && forall j: nat :: j < |r| ==> r[j] == if j == i then v else view[j]
  {
    view[i := v]
  }

  /** The same event when every process has its own memory. */
  function Private(views: seq<seq<Byte>>, e: Event): seq<seq<Byte>> {
    match e
    case Forking(k) => if k < |views| then views + [views[k]] else views
    case Storing(k, a, v) =>
      if k < |views| && a >= TEXT && a - TEXT < |views[k]| then views[k := Written(views[k], a - TEXT, v)] else views
  }

  lemma SameViewIs(m: seq<Byte>, p: Process, n: seq<Byte>, q: Process)
    requires SameView(m, p, n, q)
    ensures View(m, p) == View(n, q)
  {
  }

  /** The child sees what the parent saw, and nobody who existed sees any change. */
  lemma Forked(w: World, k: nat, t: World)
    requires Sound(w) && Forks(w, k, t)
    ensures Sound(t) && SameView(t.memory, t.processes[|w.processes|], w.memory, w.processes[k])
    ensures forall l: nat :: l < |w.processes| ==> SameView(w.memory, w.processes[l], t.memory, t.processes[l])
  {
    var ps, child := w.processes, t.processes[|w.processes|];
    assert t.processes == ps + [child];
    ForkCopiesAndIsolates(w.memory, t.memory, ps, k, child, w.free);
  }

  lemma ForkStep(w: World, k: nat, t: World)
    requires Sound(w) && Forks(w, k, t)
    ensures Sound(t) && Views(t) == Private(Views(w), Forking(k))
  {
    var ps, child := w.processes, t.processes[|w.processes|];
    Forked(w, k, t);
    SameViewIs(t.memory, child, w.memory, ps[k]);
    forall l: nat | l < |ps| ensures Views(t)[l] == Views(w)[l] {
      SameViewIs(w.memory, ps[l], t.memory, ps[l]);
    }
    assert Views(t) == Views(w) + [Views(w)[k]];
  }

  lemma StoreSound(w: World, k: nat, a: Word, v: Byte, t: World)
    requires Sound(w) && Stores(w, k, a, v, t)
    ensures Sound(t) && a >= TEXT
  {
    StoreIsolated(w.memory, w.processes, k, a, v);
  }

  /** One process's view after a store. */
  lemma StoreViewed(w: World, k: nat, a: Word, v: Byte, t: World, l: nat)
    requires Sound(w) && Sound(t) && Stores(w, k, a, v, t) && l < |w.processes| && a >= TEXT
    ensures var before := View(w.memory, w.processes[l]);
            View(t.memory, w.processes[l]) == if l == k then Written(before, a - TEXT, v) else before
  {
    StoreIsolated(w.memory, w.processes, k, a, v);
    var before, after := View(w.memory, w.processes[l]), View(t.memory, w.processes[l]);
    forall i: nat | i < 0x2000 ensures after[i] == if l == k && i == a - TEXT then v else before[i] {
      var b: Word := TEXT + i;
      assert UserByte(t.memory, w.processes[l], b) == after[i];
    }
  }

  lemma StoreStep(w: World, k: nat, a: Word, v: Byte, t: World)
    requires Sound(w) && Stores(w, k, a, v, t)
    ensures Sound(t) && Views(t) == Private(Views(w), Storing(k, a, v))
  {
    StoreSound(w, k, a, v, t);
    var x := Written(Views(w)[k], a - TEXT, v);
    forall l: nat | l < |w.processes| ensures Views(t)[l] == if l == k then x else Views(w)[l] {
      StoreViewed(w, k, a, v, t, l);
    }
    OneReplaced(Views(w), Views(t), k, x);
  }

  lemma OneReplaced(before: seq<seq<Byte>>, after: seq<seq<Byte>>, k: nat, x: seq<Byte>)
    requires k < |before| == |after|
    requires forall l: nat :: l < |before| ==> after[l] == if l == k then x else before[l]
    ensures after == before[k := x]
  {
  }

  function RunPrivate(views: seq<seq<Byte>>, events: seq<Event>): seq<seq<Byte>>
    decreases |events|
  {
    if events == [] then views else RunPrivate(Private(views, events[0]), events[1..])
  }

  ghost predicate Run(worlds: seq<World>, events: seq<Event>) {
    |worlds| == |events| + 1 && forall i: nat :: i < |events| ==> Step(worlds[i], events[i], worlds[i + 1])
  }

  /** After any run of forks and user stores no frame is shared, all tables stand, and what
      each process sees is what it would see with a private copy made at its fork. */
  lemma {:induction false} MemoryIsPrivate(worlds: seq<World>, events: seq<Event>)
    requires Run(worlds, events) && Sound(worlds[0])
    ensures Sound(worlds[|events|]) && Views(worlds[|events|]) == RunPrivate(Views(worlds[0]), events)
    decreases |events|
  {
    if events != [] {
      var w, t, e := worlds[0], worlds[1], events[0];
      assert Step(w, e, t);
      match e {
        case Forking(k) => ForkStep(w, k, t);
        case Storing(k, a, v) => StoreStep(w, k, a, v, t);
      }
      forall i: nat | i < |events[1..]| ensures Step(worlds[1..][i], events[1..][i], worlds[1..][i + 1]) {
        assert Step(worlds[i + 1], events[i + 1], worlds[i + 2]);
      }
      MemoryIsPrivate(worlds[1..], events[1..]);
    }
  }
}
