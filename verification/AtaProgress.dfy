/** How long a disk request waits: the ATA protocol run under the round-robin scheduler, whose
    choice decides which process each switch goes to. */
module AtaProgress {
  import opened AtaProtocol
  import opened AtaQueue
  import opened ProcessStates
  import opened Util
  import RoundRobin

  /** The protocol's system and the process list, in list order from the guard. */
  datatype Kernel = Kernel(system: System, order: seq<nat>)

  /** Each process is on the list once. */
  ghost predicate OnList(order: seq<nat>, state: map<nat, ProcessState>) {
    && (forall i, j :: 0 <= i < j < |order| ==> order[i] != order[j])
    && (forall p :: p in order <==> p in state)
  }

  ghost predicate Good(k: Kernel) {
    Inv(k.system) && OnList(k.order, k.system.state)
  }

  function IndexOf(order: seq<nat>, p: nat): (i: nat)
    requires p in order
    ensures i < |order| && order[i] == p
  {
    if order[0] == p then 0 else 1 + IndexOf(order[1..], p)
  }

  function States(order: seq<nat>, state: map<nat, ProcessState>): (s: seq<ProcessState>)
    requires forall p :: p in order ==> p in state
    ensures |s| == |order| && forall i :: 0 <= i < |s| ==> s[i] == state[order[i]]
  {
    seq(|order|, i requires 0 <= i < |order| => state[order[i]])
  }

  /** What the scheduler sees. */
  function View(k: Kernel): (v: RoundRobin.Sched)
    requires Good(k)
    ensures RoundRobin.Valid(v) && |v.states| == |k.order| && k.order[v.current] == k.system.current
  {
    RoundRobin.Sched(States(k.order, k.system.state), IndexOf(k.order, k.system.current))
  }

  /** The scheduling event a step is, if it is one: a refused read and a resumption are none. */
  function EventOf(k: Kernel, a: Action): Option<RoundRobin.Event>
    requires Good(k) && Enabled(k.system, a)
  {
    match a
    case Read(_, _, _, _) => if k.system.ring.size == CAPACITY then None else Some(RoundRobin.Sleep)
    case Interrupt =>
      FrontIsListed(k);
      Some(RoundRobin.Wakeup(IndexOf(k.order, RingFront(k.system.ring).process)))
    case Resume => None
    case Switch(_) => Some(RoundRobin.Tick)
    case Exit(_) => Some(RoundRobin.Exit)
    case Fork(_) => Some(RoundRobin.Fork)
  }

  lemma FrontIsListed(k: Kernel)
    requires Good(k) && k.system.commands != []
    ensures k.system.ring.size > 0 && RingFront(k.system.ring) == Contents(k.system.ring)[0]
    ensures RingFront(k.system.ring).process in k.system.inRead && RingFront(k.system.ring).process in k.order
  {
    PopDrops(k.system.ring);
  }

  /** The process a step gives the processor to. */
  function NextOf(a: Action): Option<nat> {
    match a
    case Read(_, _, _, next) => Some(next)
    case Switch(next) => Some(next)
    case Exit(next) => Some(next)
    case _ => None
  }

  predicate Schedules(k: Kernel, a: Action)
    requires Good(k) && Enabled(k.system, a)
  {
    EventOf(k, a).Some? && RoundRobin.Schedules(EventOf(k, a).value)
  }

  /** The step is enabled, and where it schedules it takes the round robin's choice. */
  ghost predicate Possible(k: Kernel, a: Action) {
    && Good(k) && Enabled(k.system, a)
    && (Schedules(k, a) ==>
          && RoundRobin.Enabled(View(k), EventOf(k, a).value)
          && NextOf(a) == Some(k.order[RoundRobin.Step(View(k), EventOf(k, a).value).current]))
  }

  /** A fork puts the child right behind its parent. */
  function Do(k: Kernel, a: Action): Kernel
    requires Good(k) && Enabled(k.system, a)
  {
    var i := IndexOf(k.order, k.system.current);
    Kernel(Apply(k.system, a), if a.Fork? then k.order[..i + 1] + [a.child] + k.order[i + 1..] else k.order)
  }

  // ---------------------------------------------------------------- the protocol follows the scheduler

  lemma IndexIs(order: seq<nat>, i: nat)
    requires i < |order| && forall a, b :: 0 <= a < b < |order| ==> order[a] != order[b]
    ensures IndexOf(order, order[i]) == i
  {
  }

  /** Setting one process's state sets it at its place. */
  lemma StatesSet(order: seq<nat>, state: map<nat, ProcessState>, p: nat, s: ProcessState)
    requires OnList(order, state) && p in order
    ensures OnList(order, state[p := s])
    ensures States(order, state[p := s]) == States(order, state)[IndexOf(order, p) := s]
  {
  }

  lemma ViewIs(k: Kernel, states: seq<ProcessState>, i: nat)
    requires Good(k) && States(k.order, k.system.state) == states && i < |k.order| && k.order[i] == k.system.current
    ensures View(k) == RoundRobin.Sched(states, i)
  {
  }

  lemma AcceptedRead(s: System, a: Action)
    requires Inv(s) && Enabled(s, a) && a.Read? && s.ring.size < CAPACITY
    ensures Apply(s, a).state == s.state[s.current := SLEEP] && Apply(s, a).current == a.next
  {
  }

  lemma ReadFollows(k: Kernel, a: Action)
    requires Possible(k, a) && a.Read? && EventOf(k, a) == Some(RoundRobin.Sleep)
    ensures Good(Do(k, a)) && View(Do(k, a)) == RoundRobin.Step(View(k), RoundRobin.Sleep)
  {
    StepKeeps(k.system, a);
    var after := RoundRobin.Step(View(k), RoundRobin.Sleep);
    StatesSet(k.order, k.system.state, k.system.current, SLEEP);
    AcceptedRead(k.system, a);
    ViewIs(Do(k, a), after.states, after.current);
  }

  lemma RefusedRead(k: Kernel, a: Action)
    requires Possible(k, a) && a.Read? && k.system.ring.size == CAPACITY
    ensures Do(k, a) == k
  {
  }

  lemma ExitFollows(k: Kernel, a: Action)
    requires Possible(k, a) && a.Exit?
    ensures Good(Do(k, a)) && View(Do(k, a)) == RoundRobin.Step(View(k), RoundRobin.Exit)
  {
    StepKeeps(k.system, a);
    var after := RoundRobin.Step(View(k), RoundRobin.Exit);
    StatesSet(k.order, k.system.state, k.system.current, ZOMBIE);
    ViewIs(Do(k, a), after.states, after.current);
  }

  lemma SwitchFollows(k: Kernel, a: Action)
    requires Possible(k, a) && EventOf(k, a) == Some(RoundRobin.Tick)
    ensures Good(Do(k, a)) && View(Do(k, a)) == RoundRobin.Step(View(k), RoundRobin.Tick)
  {
    StepKeeps(k.system, a);
    ViewIs(Do(k, a), View(k).states, RoundRobin.Step(View(k), RoundRobin.Tick).current);
  }

  lemma InterruptFollows(k: Kernel)
    requires Possible(k, Interrupt)
    ensures Good(Do(k, Interrupt)) && RoundRobin.Enabled(View(k), EventOf(k, Interrupt).value)
    ensures View(Do(k, Interrupt)) == RoundRobin.Step(View(k), EventOf(k, Interrupt).value)
  {
    FrontIsListed(k);
    InterruptKeeps(k.system);
    StatesSet(k.order, k.system.state, RingFront(k.system.ring).process, RUNNING);
  }

  lemma ResumeFollows(k: Kernel)
    requires Possible(k, Resume)
    ensures Good(Do(k, Resume)) && View(Do(k, Resume)) == View(k)
  {
    StepKeeps(k.system, Resume);
  }

  /** `more` is `order` with `child` put in behind place i. */
  ghost predicate PutIn<T>(order: seq<T>, i: nat, child: T, more: seq<T>) {
    && i < |order| && |more| == |order| + 1 && more[i + 1] == child
    && (forall a :: 0 <= a <= i ==> more[a] == order[a])
    && (forall a :: i + 1 < a < |more| ==> more[a] == order[a - 1])
  }

  lemma PutInMembers(order: seq<nat>, i: nat, child: nat, more: seq<nat>, p: nat)
    requires PutIn(order, i, child, more)
    ensures p in more <==> p in order || p == child
  {
    if p in order {
      var j :| 0 <= j < |order| && order[j] == p;
      assert more[if j <= i then j else j + 1] == p;
    }
    if p in more && p != child {
      var j :| 0 <= j < |more| && more[j] == p;
      assert order[if j <= i then j else j - 1] == p;
    }
    assert more[i + 1] in more;
  }

  lemma PutInDistinct(order: seq<nat>, i: nat, child: nat, more: seq<nat>, a: nat, b: nat)
    requires PutIn(order, i, child, more) && child !in order && a < b < |more|
    requires forall c, d :: 0 <= c < d < |order| ==> order[c] != order[d]
    ensures more[a] != more[b]
  {
  }

  lemma PutInList(order: seq<nat>, state: map<nat, ProcessState>, i: nat, child: nat, more: seq<nat>)
    requires OnList(order, state) && PutIn(order, i, child, more) && child !in state
    ensures OnList(more, state[child := RUNNING])
  {
    forall p ensures p in more <==> p in state[child := RUNNING] {
      PutInMembers(order, i, child, more, p);
    }
    forall a: nat, b: nat | a < b < |more| ensures more[a] != more[b] {
      PutInDistinct(order, i, child, more, a, b);
    }
  }

  /** The child starts in its parent's state. */
  lemma PutInStates(order: seq<nat>, state: map<nat, ProcessState>, i: nat, child: nat, more: seq<nat>)
    requires OnList(order, state) && PutIn(order, i, child, more) && child !in state && state[order[i]] == RUNNING
    requires OnList(more, state[child := RUNNING])
    ensures PutIn(States(order, state), i, RUNNING, States(more, state[child := RUNNING]))
  {
  }

  lemma PutInIs<T>(order: seq<T>, i: nat, child: T, more: seq<T>)
    requires i < |order|
    ensures PutIn(order, i, child, more) <==> more == order[..i + 1] + [child] + order[i + 1..]
  {
  }

  lemma ForkGood(k: Kernel, a: Action)
    requires Possible(k, a) && a.Fork?
    ensures Good(Do(k, a)) && PutIn(k.order, IndexOf(k.order, k.system.current), a.child, Do(k, a).order)
  {
    StepKeeps(k.system, a);
    var i, more := IndexOf(k.order, k.system.current), Do(k, a).order;
    PutInIs(k.order, i, a.child, more);
    PutInList(k.order, k.system.state, i, a.child, more);
  }

  lemma ForkIsPutIn(v: RoundRobin.Sched, after: seq<ProcessState>)
    requires RoundRobin.Valid(v) && PutIn(v.states, v.current, v.states[v.current], after)
    ensures RoundRobin.Step(v, RoundRobin.Fork) == RoundRobin.Sched(after, v.current)
  {
    PutInIs(v.states, v.current, v.states[v.current], after);
  }

  lemma ForkFollows(k: Kernel, a: Action)
    requires Possible(k, a) && a.Fork?
    ensures Good(Do(k, a)) && View(Do(k, a)) == RoundRobin.Step(View(k), RoundRobin.Fork)
  {
    ForkGood(k, a);
    var v, t := View(k), Do(k, a);
    var after := States(t.order, t.system.state);
    assert v.states[v.current] == RUNNING;
    PutInStates(k.order, k.system.state, v.current, a.child, t.order);
    ForkIsPutIn(v, after);
    ViewIs(t, after, v.current);
  }

  /** Every step of the protocol is the scheduler's step for its event. */
  lemma StepFollows(k: Kernel, a: Action)
    requires Possible(k, a)
    ensures Good(Do(k, a))
    ensures match EventOf(k, a)
            case None => View(Do(k, a)) == View(k)
            case Some(e) => RoundRobin.Enabled(View(k), e) && View(Do(k, a)) == RoundRobin.Step(View(k), e)
  {
    match a
    case Read(_, _, _, _) =>
      if k.system.ring.size < CAPACITY {
        ReadFollows(k, a);
      } else {
        RefusedRead(k, a);
      }
    case Interrupt => InterruptFollows(k);
    case Resume => ResumeFollows(k);
    case Switch(_) => SwitchFollows(k, a);
    case Exit(_) => ExitFollows(k, a);
    case Fork(_) => ForkFollows(k, a);
  }

  lemma StepGood(k: Kernel, a: Action)
    requires Possible(k, a)
    ensures Good(Do(k, a))
  {
    StepFollows(k, a);
  }

  // ---------------------------------------------------------------- from wakeup to resumption

  /** The disk has finished the front request, whose owner has not come back yet. */
  predicate Answered(k: Kernel) {
    FrontDone(k.system.commands)
  }

  /** How many calls of Schedule the owner of the front request is away from the processor. */
  ghost function Wait(k: Kernel): (w: nat)
    requires Good(k) && Answered(k)
    ensures w <= |k.order|
  {
    FrontIsListed(k);
    var p := RingFront(k.system.ring).process;
    if k.system.current == p then 0 else RoundRobin.Distance(View(k), IndexOf(k.order, p))
  }

  /** While an answer waits, any step but the resumption keeps it waiting, nearer by one if
      the step schedules and farther by one if it forks. */
  lemma WaitStep(k: Kernel, a: Action)
    requires Possible(k, a) && Answered(k) && !a.Resume?
    ensures Good(Do(k, a)) && Answered(Do(k, a)) && RingFront(Do(k, a).system.ring) == RingFront(k.system.ring)
    ensures Wait(Do(k, a)) + (if Schedules(k, a) then 1 else 0) <= Wait(k) + (if a.Fork? then 1 else 0)
  {
    var t := Do(k, a);
    StepFollows(k, a);
    FrontStays(k.system, a, t.system);
    FrontIsListed(k);
    FrontIsListed(t);
    var p := RingFront(k.system.ring).process;
    OwnerAwake(k);
    var v, i := View(k), IndexOf(k.order, p);
    assert v.states[i] == RUNNING && i != v.current;
    match EventOf(k, a) {
      case None =>
      case Some(e) =>
        ForkEvent(k, a, e);
        MovedIs(k, a, p, e, i, t);
        if t.system.current != p {
          RoundRobin.StepApproaches(v, e, i);
        }
    }
  }

  lemma OwnerAwake(k: Kernel)
    requires Good(k) && Answered(k)
    ensures k.system.ring.size > 0
    ensures var p := RingFront(k.system.ring).process; p in k.system.state && k.system.state[p] == RUNNING
  {
    FrontIsListed(k);
  }

  /** The owner is not the current process, which could only resume; and the front stays. */
  lemma FrontStays(s: System, a: Action, t: System)
    requires Inv(s) && Enabled(s, a) && t == Apply(s, a) && RingOk(t.ring) && FrontDone(s.commands) && !a.Resume?
    ensures s.current != RingFront(s.ring).process && !a.Interrupt?
    ensures t.commands == s.commands && RingFront(t.ring) == RingFront(s.ring)
  {
    PopDrops(s.ring);
    if a.Read? {
      var request := Request(false, a.lba, a.sizeOfBytes, false, a.buffer, s.current);
      ReadChanges(s, a.lba, a.sizeOfBytes, a.buffer, a.next, request);
      assert s.commands + [] == s.commands;
      PopDrops(t.ring);
    }
  }

  /** The scheduler moves the owner's place as the list does. */
  lemma MovedIs(k: Kernel, a: Action, p: nat, e: RoundRobin.Event, i: nat, t: Kernel)
    requires Possible(k, a) && (a.Fork? <==> e.Fork?) && t == Do(k, a) && Good(t)
    requires p in k.order && i == IndexOf(k.order, p)
    ensures p in t.order && IndexOf(t.order, p) == RoundRobin.Moved(View(k), e, i)
  {
    if a.Fork? {
      ForkMoves(k, a, p);
    } else {
      assert t.order == k.order;
      assert RoundRobin.Moved(View(k), e, i) == i;
    }
  }

  lemma ForkEvent(k: Kernel, a: Action, e: RoundRobin.Event)
    requires Good(k) && Enabled(k.system, a) && EventOf(k, a) == Some(e)
    ensures a.Fork? <==> e.Fork?
  {
  }

  lemma ForkMoves(k: Kernel, a: Action, p: nat)
    requires Possible(k, a) && a.Fork? && p in k.order && Good(Do(k, a))
    ensures var i, j := View(k).current, IndexOf(k.order, p);
            p in Do(k, a).order && IndexOf(Do(k, a).order, p) == if j > i then j + 1 else j
  {
    ForkGood(k, a);
    PutInMoves(k.order, IndexOf(k.order, k.system.current), a.child, Do(k, a).order, IndexOf(k.order, p));
  }

  lemma PutInMoves(order: seq<nat>, i: nat, child: nat, more: seq<nat>, j: nat)
    requires PutIn(order, i, child, more) && j < |order|
    requires forall a, b :: 0 <= a < b < |more| ==> more[a] != more[b]
    ensures order[j] in more && IndexOf(more, order[j]) == if j > i then j + 1 else j
  {
    var place := if j > i then j + 1 else j;
    assert more[place] == order[j];
    IndexIs(more, place);
  }

  // ---------------------------------------------------------------- runs

  ghost predicate KernelRun(k: Kernel, actions: seq<Action>)
    requires Good(k)
    decreases |actions|
  {
    actions != [] ==> Possible(k, actions[0]) && (StepGood(k, actions[0]); KernelRun(Do(k, actions[0]), actions[1..]))
  }

  ghost function KernelAfter(k: Kernel, actions: seq<Action>): (t: Kernel)
    requires Good(k) && KernelRun(k, actions)
    ensures Good(t)
    decreases |actions|
  {
    if actions == [] then k
    else
      StepGood(k, actions[0]);
      KernelAfter(Do(k, actions[0]), actions[1..])
  }

  /** Calls of Schedule in the run. */
  ghost function Schedulings(k: Kernel, actions: seq<Action>): nat
    requires Good(k) && KernelRun(k, actions)
    decreases |actions|
  {
    if actions == [] then 0
    else
      StepGood(k, actions[0]);
      (if Schedules(k, actions[0]) then 1 else 0) + Schedulings(Do(k, actions[0]), actions[1..])
  }

  function Forks(actions: seq<Action>): nat {
    if actions == [] then 0 else (if actions[0].Fork? then 1 else 0) + Forks(actions[1..])
  }

  function Resumes(actions: seq<Action>): nat {
    if actions == [] then 0 else (if actions[0].Resume? then 1 else 0) + Resumes(actions[1..])
  }

  function Interrupts(actions: seq<Action>): nat {
    if actions == [] then 0 else (if actions[0].Interrupt? then 1 else 0) + Interrupts(actions[1..])
  }

  /** Once the disk has answered, the owner comes back within d + f calls of Schedule, d its
      distance and f the forks meanwhile: a run without its return cannot have more. */
  lemma {:induction false} WokenComesBack(k: Kernel, actions: seq<Action>)
    requires Good(k) && Answered(k) && KernelRun(k, actions) && Resumes(actions) == 0
    ensures Schedulings(k, actions) <= Wait(k) + Forks(actions)
    decreases |actions|
  {
    if actions != [] {
      WaitStep(k, actions[0]);
      WokenComesBack(Do(k, actions[0]), actions[1..]);
    }
  }

  /** Each return from a read is one delivery, each interrupt one wakeup. */
  lemma {:induction false} OneByOne(k: Kernel, actions: seq<Action>)
    requires Good(k) && KernelRun(k, actions)
    ensures var s, t := k.system, KernelAfter(k, actions).system;
            && |t.delivered| == |s.delivered| + Resumes(actions)
            && |t.woken| == |s.woken| + Interrupts(actions)
            && s.pushed <= t.pushed
    decreases |actions|
  {
    if actions != [] {
      var a, rest := actions[0], actions[1..];
      StepGood(k, a);
      OneStep(k.system, a);
      OneByOne(Do(k, a), rest);
    }
  }

  lemma OneStep(s: System, a: Action)
    requires Inv(s) && Enabled(s, a)
    ensures var t := Apply(s, a);
            && |t.delivered| == |s.delivered| + (if a.Resume? then 1 else 0)
            && |t.woken| == |s.woken| + (if a.Interrupt? then 1 else 0)
            && s.pushed <= t.pushed
  {
  }

  /** A request with j ahead of it is delivered, to its owner and its buffer, by the j + 1st
      return from a read; interrupts and returns alternate, so that is the j + 1st pair. */
  lemma DeliveredInTurn(k: Kernel, actions: seq<Action>, j: nat)
    requires Good(k) && KernelRun(k, actions) && j < |Contents(k.system.ring)|
    ensures var t, n := KernelAfter(k, actions).system, |k.system.delivered|;
            && (Resumes(actions) > j <==> |t.delivered| > n + j)
            && (Resumes(actions) > j ==> t.delivered[n + j] == OwnDelivery(Contents(k.system.ring)[j]))
            && Interrupts(actions) + (if Answered(k) then 1 else 0) ==
               Resumes(actions) + (if Answered(KernelAfter(k, actions)) then 1 else 0)
  {
    OneByOne(k, actions);
    var s, t := k.system, KernelAfter(k, actions).system;
    assert s.pushed[|s.delivered| + j] == Contents(s.ring)[j];
  }

  // ---------------------------------------------------------------- the bound

  /** A round: up to some point `before`, by when the disk has answered, and then `after` with
      enough calls of Schedule to get the owner back: more than processes on the list and
      forks meanwhile. */
  datatype Round = Round(before: seq<Action>, after: seq<Action>)

  ghost predicate Ample(k: Kernel, r: Round)
    requires Good(k)
  {
    && KernelRun(k, r.before)
    && var answered := KernelAfter(k, r.before);
       && Answered(answered) && KernelRun(answered, r.after)
       && Schedulings(answered, r.after) > |answered.order| + Forks(r.after)
  }

  ghost function AfterRound(k: Kernel, r: Round): (t: Kernel)
    requires Good(k) && Ample(k, r)
    ensures Good(t)
  {
    KernelAfter(KernelAfter(k, r.before), r.after)
  }

  /** Rounds one after the other, each ample. */
  ghost predicate AllAmple(k: Kernel, rounds: seq<Round>)
    requires Good(k)
    decreases |rounds|
  {
    rounds != [] ==> Ample(k, rounds[0]) && AllAmple(AfterRound(k, rounds[0]), rounds[1..])
  }

  ghost function Flat(rounds: seq<Round>): seq<Action> {
    if rounds == [] then [] else rounds[0].before + rounds[0].after + Flat(rounds[1..])
  }

  lemma {:induction false} ResumesAppend(first: seq<Action>, rest: seq<Action>)
    ensures Resumes(first + rest) == Resumes(first) + Resumes(rest)
  {
    if first == [] {
      assert first + rest == rest;
    } else {
      assert (first + rest)[1..] == first[1..] + rest;
      ResumesAppend(first[1..], rest);
    }
  }

  lemma TailOf(first: seq<Action>, rest: seq<Action>, all: seq<Action>)
    requires first != [] && all == first + rest
    ensures all != [] && all[0] == first[0] && all[1..] == first[1..] + rest
  {
  }

  lemma {:induction false} RunsAppend(k: Kernel, first: seq<Action>, rest: seq<Action>, all: seq<Action>)
    requires Good(k) && KernelRun(k, first) && KernelRun(KernelAfter(k, first), rest) && all == first + rest
    ensures KernelRun(k, all) && KernelAfter(k, all) == KernelAfter(KernelAfter(k, first), rest)
    decreases |first|
  {
    if first == [] {
      assert all == rest;
    } else {
      TailOf(first, rest, all);
      StepGood(k, first[0]);
      RunsAppend(Do(k, first[0]), first[1..], rest, all[1..]);
    }
  }

  /** An ample round brings a process back. */
  lemma RoundResumes(k: Kernel, r: Round)
    requires Good(k) && Ample(k, r)
    ensures KernelRun(k, r.before + r.after) && KernelAfter(k, r.before + r.after) == AfterRound(k, r)
    ensures Resumes(r.before + r.after) > 0
  {
    RunsAppend(k, r.before, r.after, r.before + r.after);
    ResumesAppend(r.before, r.after);
    if Resumes(r.after) == 0 {
      WokenComesBack(KernelAfter(k, r.before), r.after);
    }
  }

  lemma {:induction false} RoundsResume(k: Kernel, rounds: seq<Round>)
    requires Good(k) && AllAmple(k, rounds)
    ensures KernelRun(k, Flat(rounds)) && Resumes(Flat(rounds)) >= |rounds|
    decreases |rounds|
  {
    if rounds != [] {
      var first, rest := rounds[0].before + rounds[0].after, Flat(rounds[1..]);
      RoundResumes(k, rounds[0]);
      RoundsResume(AfterRound(k, rounds[0]), rounds[1..]);
      RunsAppend(k, first, rest, Flat(rounds));
      ResumesAppend(first, rest);
    }
  }

  /** Bounded waiting for the disk: a request with j ahead of it is delivered to its owner
      after j + 1 rounds in each of which the disk answers and Schedule is then called more
      often than there are processes and forks. */
  lemma DeliveredInTime(k: Kernel, rounds: seq<Round>, j: nat)
    requires Good(k) && AllAmple(k, rounds) && j < |Contents(k.system.ring)| && j < |rounds|
    ensures KernelRun(k, Flat(rounds))
    ensures var t, n := KernelAfter(k, Flat(rounds)).system, |k.system.delivered|;
            |t.delivered| > n + j && t.delivered[n + j] == OwnDelivery(Contents(k.system.ring)[j])
  {
    RoundsResume(k, rounds);
    DeliveredInTurn(k, Flat(rounds), j);
  }
}
