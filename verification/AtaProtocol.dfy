/** The ATA request protocol of ata.c and scheduler.c as a transition system. A kernel
    segment is one step: gates mask interrupts, so a segment runs until it switches to
    another process or leaves the kernel. */
module AtaProtocol {
  import opened ProcessStates
  import opened AtaQueue

  /** A command the controller has been given, and whether it has raised its interrupt. */
  datatype Command = Command(request: Request, done: bool)

  /** What reading the data port yields: the sectors of a finished command, or nothing sensible. */
  datatype Data = Sectors(lba: nat, sizeOfBytes: int) | Garbage

  datatype Delivery = Delivery(buffer: nat, process: nat, reader: nat, data: Data)

  /** `inRead` holds the processes that have pushed a request and not returned from ATARead,
      with that request. The histories record pushes, wakeups and deliveries in order. */
  datatype System = System(
    ring: Ring,
    commands: seq<Command>,
    state: map<nat, ProcessState>,
    current: nat,
    inRead: map<nat, Request>,
    pushed: seq<Request>,
    woken: seq<nat>,
    delivered: seq<Delivery>)

  datatype Action =
    | Read(lba: nat, sizeOfBytes: int, buffer: nat, next: nat)
    | Interrupt
    | Resume
    | Switch(next: nat)
    | Exit(next: nat)
    | Fork(child: nat)

  predicate Runs(s: System, p: nat) {
    p in s.state && s.state[p] == RUNNING
  }

  /** ATASendRequest. */
  function Send(s: System, request: Request): System {
    s.(commands := s.commands + [Command(request, false)])
  }

  /** ATARead up to and including sleep: push, send if alone, sleep, and let `next` run. */
  function BeginRead(s: System, lba: nat, sizeOfBytes: int, buffer: nat, next: nat): System
    requires RingOk(s.ring)
  {
    var request := Request(false, lba, sizeOfBytes, false, buffer, s.current);
    var (ring, index) := RingPush(s.ring, request);
    if index == -1 then s
    else
      var t := s.(ring := ring, inRead := s.inRead[s.current := request], pushed := s.pushed + [request]);
      var u := if t.ring.size == 1 && index < |ring.body| then Send(t, t.ring.body[index]) else t;
      u.(state := u.state[s.current := SLEEP], current := next)
  }

  /** ATAHandler, for the interrupt of the first unfinished command. */
  function Handle(s: System): System
    requires RingOk(s.ring) && s.commands != []
  {
    var request := RingFront(s.ring);
    s.(commands := s.commands[0 := s.commands[0].(done := true)],
       state := s.state[request.process := RUNNING],
       woken := s.woken + [request.process])
  }

  /** ATARead after sleep: read the data into the front request's buffer, mark it complete,
      pop it, and send the next one. */
  function FinishRead(s: System): System
    requires RingOk(s.ring)
  {
    var front := RingFront(s.ring);
    var data := if s.commands != [] && s.commands[0].done
                then Sectors(s.commands[0].request.lba, s.commands[0].request.sizeOfBytes) else Garbage;
    var t := s.(commands := if s.commands == [] then [] else s.commands[1..],
                ring := RingPop(SetFront(s.ring, front.(isComplete := true))),
                inRead := s.inRead - {s.current},
                delivered := s.delivered + [Delivery(front.buffer, front.process, s.current, data)]);
    if t.ring.size >= 1 then Send(t, RingFront(t.ring)) else t
  }

  /** Steps the machine can take. A process inside ATARead does nothing but resume; a step
      that gives up the processor needs somebody to run. */
  predicate Enabled(s: System, a: Action) {
    RingOk(s.ring) &&
    match a
    case Read(_, _, _, next) =>
      && s.current !in s.inRead && Runs(s, s.current)
      && (s.ring.size < CAPACITY ==> next != s.current && Runs(s, next))
    case Interrupt => s.commands != [] && !s.commands[0].done
    case Resume => s.current in s.inRead && Runs(s, s.current)
    case Switch(next) => s.current !in s.inRead && Runs(s, next)
    case Exit(next) => s.current !in s.inRead && next != s.current && Runs(s, next)
    case Fork(child) => s.current !in s.inRead && child !in s.state
  }

  function Apply(s: System, a: Action): System
    requires Enabled(s, a)
  {
    match a
    case Read(lba, size, buffer, next) => BeginRead(s, lba, size, buffer, next)
    case Interrupt => Handle(s)
    case Resume => FinishRead(s)
    case Switch(next) => s.(current := next)
    case Exit(next) => s.(state := s.state[s.current := ZOMBIE], current := next)
    case Fork(child) => s.(state := s.state[child := RUNNING])
  }

  // ---------------------------------------------------------------- the invariant

  /** The front request's command is the only one outstanding. */
  predicate OneCommand(commands: seq<Command>, q: seq<Request>) {
    if q == [] then commands == [] else |commands| == 1 && commands[0].request == q[0]
  }

  /** The command of the front request has raised its interrupt. */
  predicate FrontDone(commands: seq<Command>) {
    commands != [] && commands[0].done
  }

  /** Readers and queued requests, all of them reads, correspond one to one. */
  ghost predicate Owners(inRead: map<nat, Request>, q: seq<Request>) {
    && (forall i :: 0 <= i < |q| ==> q[i].process in inRead && inRead[q[i].process] == q[i])
    && (forall i, j :: 0 <= i < j < |q| ==> q[i].process != q[j].process)
    && (forall p :: p in inRead ==> Queued(q, p) && !inRead[p].isWrite)
  }

  ghost predicate Queued(q: seq<Request>, p: nat) {
    exists i :: 0 <= i < |q| && q[i].process == p
  }

  function ReaderState(done: bool, q: seq<Request>, p: nat): ProcessState {
    if done && q != [] && q[0].process == p then RUNNING else SLEEP
  }

  /** Readers sleep, except the owner of the front request once its command is done; nobody
      else sleeps. */
  ghost predicate Sleepers(state: map<nat, ProcessState>, inRead: map<nat, Request>, done: bool, q: seq<Request>) {
    && (forall p :: p in inRead ==> p in state && state[p] == ReaderState(done, q, p))
    && (forall p :: p in state && p !in inRead ==> state[p] != SLEEP)
  }

  /** What delivering a request to its owner looks like. */
  function OwnDelivery(r: Request): Delivery {
    Delivery(r.buffer, r.process, r.process, Sectors(r.lba, r.sizeOfBytes))
  }

  /** Deliveries so far are the earliest pushes in order, each with its own data in its own
      buffer, read by its own process; the queue holds the rest; wakeups came in the same
      order. */
  ghost predicate InOrder(pushed: seq<Request>, delivered: seq<Delivery>, woken: seq<nat>, done: bool,
                          q: seq<Request>)
  {
    var n := |delivered|;
    && |pushed| == n + |q|
    && (forall i :: 0 <= i < |q| ==> pushed[n + i] == q[i])
    && (forall i :: 0 <= i < n ==> delivered[i] == OwnDelivery(pushed[i]))
    && |woken| == n + (if done then 1 else 0) <= |pushed|
    && (forall i :: 0 <= i < |woken| ==> woken[i] == pushed[i].process)
  }

  ghost predicate Inv(s: System) {
    && RingOk(s.ring)
    && var q := Contents(s.ring);
       && OneCommand(s.commands, q)
       && Owners(s.inRead, q)
       && Sleepers(s.state, s.inRead, FrontDone(s.commands), q)
       && InOrder(s.pushed, s.delivered, s.woken, FrontDone(s.commands), q)
       && Runs(s, s.current)
  }

  // ---------------------------------------------------------------- one step

  lemma OwnersPush(inRead: map<nat, Request>, q: seq<Request>, r: Request)
    requires Owners(inRead, q) && r.process !in inRead && !r.isWrite
    ensures Owners(inRead[r.process := r], q + [r])
  {
    var u, more := q + [r], inRead[r.process := r];
    forall p | p in more ensures Queued(u, p) {
      if p == r.process {
        assert u[|q|].process == p;
      } else {
        assert Queued(q, p);
        var i :| 0 <= i < |q| && q[i].process == p;
        assert u[i].process == p;
      }
    }
  }

  lemma SleepersPush(state: map<nat, ProcessState>, inRead: map<nat, Request>, done: bool, q: seq<Request>, r: Request)
    requires Sleepers(state, inRead, done, q) && r.process !in inRead
    requires if q == [] then !done else q[0].process in inRead
    ensures Sleepers(state[r.process := SLEEP], inRead[r.process := r], done, q + [r])
  {
  }

  /** The invariant, from the queue and the fields it speaks of. */
  lemma InvFrom(s: System, q: seq<Request>)
    requires RingOk(s.ring) && Contents(s.ring) == q && Runs(s, s.current)
    requires OneCommand(s.commands, q) && Owners(s.inRead, q)
    requires Sleepers(s.state, s.inRead, FrontDone(s.commands), q)
    requires InOrder(s.pushed, s.delivered, s.woken, FrontDone(s.commands), q)
    ensures Inv(s)
  {
  }

  lemma ReadChanges(s: System, lba: nat, size: int, buffer: nat, next: nat, request: Request)
    requires RingOk(s.ring) && request == Request(false, lba, size, false, buffer, s.current)
    ensures var t, q := BeginRead(s, lba, size, buffer, next), Contents(s.ring);
            if |q| == CAPACITY then t == s
            else
              && RingOk(t.ring) && Contents(t.ring) == q + [request]
              && t.commands == s.commands + (if q == [] then [Command(request, false)] else [])
              && t.state == s.state[s.current := SLEEP] && t.current == next
              && t.inRead == s.inRead[s.current := request]
              && t.pushed == s.pushed + [request] && t.woken == s.woken && t.delivered == s.delivered
  {
  }

  lemma ReadKeeps(s: System, lba: nat, size: int, buffer: nat, next: nat)
    requires Inv(s) && Enabled(s, Read(lba, size, buffer, next))
    ensures Inv(Apply(s, Read(lba, size, buffer, next)))
  {
    var request, q := Request(false, lba, size, false, buffer, s.current), Contents(s.ring);
    var t := BeginRead(s, lba, size, buffer, next);
    ReadChanges(s, lba, size, buffer, next, request);
    if |q| < CAPACITY {
      var done := FrontDone(s.commands);
      OwnersPush(s.inRead, q, request);
      SleepersPush(s.state, s.inRead, done, q, request);
      InOrderPush(s.pushed, s.delivered, s.woken, done, q, request);
      assert OneCommand(t.commands, q + [request]) && FrontDone(t.commands) == done;
      InvFrom(t, q + [request]);
    }
  }

  lemma InOrderPush(pushed: seq<Request>, delivered: seq<Delivery>, woken: seq<nat>, done: bool,
                    q: seq<Request>, r: Request)
    requires InOrder(pushed, delivered, woken, done, q)
    ensures InOrder(pushed + [r], delivered, woken, done, q + [r])
  {
  }

  lemma InOrderDeliver(pushed: seq<Request>, delivered: seq<Delivery>, woken: seq<nat>, q: seq<Request>)
    requires InOrder(pushed, delivered, woken, true, q) && q != []
    ensures InOrder(pushed, delivered + [OwnDelivery(q[0])], woken, false, q[1..])
  {
  }

  lemma SleepersWake(state: map<nat, ProcessState>, inRead: map<nat, Request>, q: seq<Request>)
    requires Sleepers(state, inRead, false, q) && q != [] && q[0].process in inRead
    ensures Sleepers(state[q[0].process := RUNNING], inRead, true, q)
  {
  }

  /** The interrupt wakes the owner of the oldest request and nobody else. */
  lemma InterruptKeeps(s: System)
    requires Inv(s) && Enabled(s, Interrupt)
    ensures Inv(Apply(s, Interrupt))
    ensures var t, q := Apply(s, Interrupt), Contents(s.ring);
            && q != [] && s.state[q[0].process] == SLEEP && t.state == s.state[q[0].process := RUNNING]
            && t.commands == [Command(q[0], true)] && t.woken == s.woken + [q[0].process]
            && t.ring == s.ring && t.current == s.current && t.inRead == s.inRead && t.delivered == s.delivered
  {
    var t, q := Handle(s), Contents(s.ring);
    HandleWakesFront(s);
    SleepersWake(s.state, s.inRead, q);
    InOrderWake(s.pushed, s.delivered, s.woken, q);
    InvFrom(t, q);
  }

  lemma HandleWakesFront(s: System)
    requires Inv(s) && Enabled(s, Interrupt)
    ensures var t, q := Handle(s), Contents(s.ring);
            && q != [] && q[0].process in s.inRead && !FrontDone(s.commands)
            && t == s.(commands := [Command(q[0], true)], state := s.state[q[0].process := RUNNING],
                       woken := s.woken + [q[0].process])
  {
    PopDrops(s.ring);
    assert s.commands[0 := s.commands[0].(done := true)] == [Command(Contents(s.ring)[0], true)];
  }

  lemma InOrderWake(pushed: seq<Request>, delivered: seq<Delivery>, woken: seq<nat>, q: seq<Request>)
    requires InOrder(pushed, delivered, woken, false, q) && q != []
    ensures InOrder(pushed, delivered, woken + [q[0].process], true, q)
  {
  }

  /** A process that comes back from sleep owns the front request, whose command is done. */
  lemma ResumerOwnsFront(s: System)
    requires Inv(s) && Enabled(s, Resume)
    ensures s.ring.size > 0 && s.commands == [Command(RingFront(s.ring), true)]
    ensures RingFront(s.ring) == s.inRead[s.current] && RingFront(s.ring).process == s.current
    ensures RingFront(s.ring) == Contents(s.ring)[0]
  {
    PopDrops(s.ring);
    var q := Contents(s.ring);
    assert s.state[s.current] == ReaderState(FrontDone(s.commands), q, s.current);
    assert s.inRead[q[0].process] == q[0];
    assert s.commands[0] == Command(q[0], true);
  }

  lemma FinishContents(s: System)
    requires RingOk(s.ring) && s.ring.size > 0
    ensures RingOk(FinishRead(s).ring) && Contents(FinishRead(s).ring) == Contents(s.ring)[1..]
  {
    var marked := SetFront(s.ring, RingFront(s.ring).(isComplete := true));
    PopDrops(marked);
    SetFrontKeepsRest(s.ring, RingFront(s.ring).(isComplete := true));
  }

  lemma OwnersPop(inRead: map<nat, Request>, q: seq<Request>)
    requires Owners(inRead, q) && q != []
    ensures Owners(inRead - {q[0].process}, q[1..])
  {
  }

  lemma SleepersPop(state: map<nat, ProcessState>, inRead: map<nat, Request>, q: seq<Request>)
    requires Sleepers(state, inRead, true, q) && q != [] && q[0].process in inRead
    ensures Sleepers(state, inRead - {q[0].process}, false, q[1..])
  {
  }

  /** Its data lands in its own buffer, and the next request, if any, is sent. */
  lemma ResumeKeeps(s: System)
    requires Inv(s) && Enabled(s, Resume)
    ensures Inv(Apply(s, Resume))
    ensures Apply(s, Resume).delivered == s.delivered + [OwnDelivery(s.inRead[s.current])]
  {
    var t, q := FinishRead(s), Contents(s.ring);
    ResumerOwnsFront(s);
    FinishChanges(s);
    OwnersPop(s.inRead, q);
    SleepersPop(s.state, s.inRead, q);
    InOrderDeliver(s.pushed, s.delivered, s.woken, q);
    InvFrom(t, q[1..]);
  }

  lemma FinishChanges(s: System)
    requires RingOk(s.ring) && s.ring.size > 0 && s.commands == [Command(RingFront(s.ring), true)]
    requires RingFront(s.ring) == Contents(s.ring)[0] && RingFront(s.ring).process == s.current
    ensures var t, q := FinishRead(s), Contents(s.ring);
            && RingOk(t.ring) && Contents(t.ring) == q[1..]
            && t.commands == (if q[1..] == [] then [] else [Command(q[1..][0], false)])
            && t.inRead == s.inRead - {q[0].process}
            && t.delivered == s.delivered + [OwnDelivery(q[0])]
            && t.state == s.state && t.current == s.current && t.pushed == s.pushed && t.woken == s.woken
  {
    FinishContents(s);
    FinishSends(s);
  }

  lemma FinishSends(s: System)
    requires RingOk(s.ring) && s.ring.size > 0 && s.commands == [Command(RingFront(s.ring), true)]
    ensures var t, u := FinishRead(s), Contents(s.ring)[1..];
            t.commands == (if u == [] then [] else [Command(u[0], false)])
  {
  }

  lemma OthersKeep(s: System, a: Action)
    requires Inv(s) && Enabled(s, a) && (a.Switch? || a.Exit? || a.Fork?)
    ensures Inv(Apply(s, a))
  {
  }

  // ---------------------------------------------------------------- runs

  /** ATAInit with one process running. */
  predicate Initial(s: System) {
    && RingOk(s.ring) && s.ring.size == 0 && s.ring.head == 0 && s.commands == []
    && s.state == map[s.current := RUNNING] && s.inRead == map[]
    && s.pushed == [] && s.woken == [] && s.delivered == []
  }

  predicate IsRun(s: System, actions: seq<Action>)
    decreases |actions|
  {
    actions == [] || (Enabled(s, actions[0]) && IsRun(Apply(s, actions[0]), actions[1..]))
  }

  function After(s: System, actions: seq<Action>): System
    requires IsRun(s, actions)
    decreases |actions|
  {
    if actions == [] then s else After(Apply(s, actions[0]), actions[1..])
  }

  lemma StepKeeps(s: System, a: Action)
    requires Inv(s) && Enabled(s, a)
    ensures Inv(Apply(s, a))
  {
    match a
    case Read(lba, size, buffer, next) => ReadKeeps(s, lba, size, buffer, next);
    case Interrupt => InterruptKeeps(s);
    case Resume => ResumeKeeps(s);
    case _ => OthersKeep(s, a);
  }

  lemma {:induction false} RunKeeps(s: System, actions: seq<Action>)
    requires Inv(s) && IsRun(s, actions)
    ensures Inv(After(s, actions))
    decreases |actions|
  {
    if actions != [] {
      StepKeeps(s, actions[0]);
      RunKeeps(Apply(s, actions[0]), actions[1..]);
    }
  }

  /** A process that has exited stays dead and off the processor in every run: interrupts wake
      readers only, and it is none. */
  lemma {:induction false} DeadStaysDead(s: System, actions: seq<Action>, p: nat)
    requires Inv(s) && IsRun(s, actions) && p in s.state && s.state[p] == ZOMBIE
    ensures var t := After(s, actions); p in t.state && t.state[p] == ZOMBIE && t.current != p
    decreases |actions|
  {
    if actions != [] {
      StepKeeps(s, actions[0]);
      DeadStep(s, actions[0], p);
      DeadStaysDead(Apply(s, actions[0]), actions[1..], p);
    }
  }

  lemma DeadStep(s: System, a: Action, p: nat)
    requires Inv(s) && Enabled(s, a) && p in s.state && s.state[p] == ZOMBIE
    ensures p in Apply(s, a).state && Apply(s, a).state[p] == ZOMBIE
  {
    if a.Interrupt? {
      InterruptKeeps(s);
    }
  }

  lemma ExitIsFinal(s: System, next: nat, actions: seq<Action>)
    requires Inv(s) && Enabled(s, Exit(next)) && IsRun(Apply(s, Exit(next)), actions)
    ensures var t := After(Apply(s, Exit(next)), actions);
            s.current in t.state && t.state[s.current] == ZOMBIE && t.current != s.current
  {
    StepKeeps(s, Exit(next));
    DeadStaysDead(Apply(s, Exit(next)), actions, s.current);
  }

  /** Every run from ATAInit keeps the protocol. At most one command is outstanding, that of
      the queue's head. A sleeper owns a queued request, and as long as one is queued the
      controller still owes its interrupt or the head's owner is awake. A process that comes
      back from sleep owns the head. Deliveries, each to the requester's buffer, and wakeups
      follow the order of the requests. */
  lemma ProtocolSafe(s: System, actions: seq<Action>)
    requires Initial(s) && IsRun(s, actions)
    ensures var t := After(s, actions);
            && Inv(t)
            && |t.commands| <= 1 && (t.commands != [] <==> t.ring.size > 0)
            && (t.commands != [] ==> t.commands[0].request == RingFront(t.ring))
            && (forall p :: p in t.state && t.state[p] == SLEEP ==> Queued(Contents(t.ring), p))
            && (t.ring.size > 0 ==> Enabled(t, Interrupt) || Runs(t, RingFront(t.ring).process))
            && (Enabled(t, Resume) ==> RingFront(t.ring).process == t.current && FrontDone(t.commands))
            && |t.delivered| <= |t.woken| <= |t.pushed|
            && (forall i :: 0 <= i < |t.delivered| ==> t.delivered[i] == OwnDelivery(t.pushed[i]))
            && (forall i :: 0 <= i < |t.woken| ==> t.woken[i] == t.pushed[i].process)
  {
    assert Contents(s.ring) == [];
    RunKeeps(s, actions);
    HeadInControl(After(s, actions));
    SleeperQueued(After(s, actions));
  }

  lemma HeadInControl(s: System)
    requires Inv(s)
    ensures |s.commands| <= 1 && (s.commands != [] <==> s.ring.size > 0)
    ensures s.commands != [] ==> s.commands[0].request == RingFront(s.ring)
    ensures s.ring.size > 0 ==> Enabled(s, Interrupt) || Runs(s, RingFront(s.ring).process)
    ensures Enabled(s, Resume) ==> RingFront(s.ring).process == s.current && FrontDone(s.commands)
  {
    PopDrops(s.ring);
    if Enabled(s, Resume) {
      ResumerOwnsFront(s);
    }
  }

  lemma SleeperQueued(s: System)
    requires Inv(s)
    ensures forall p :: p in s.state && s.state[p] == SLEEP ==> Queued(Contents(s.ring), p)
  {
  }
}
