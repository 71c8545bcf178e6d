/** PROCESS_RUNNING, PROCESS_SLEEP and PROCESS_ZOMBIE. */
module ProcessStates {
  datatype ProcessState = RUNNING | SLEEP | ZOMBIE
}

/** The round-robin policy on values: the states of the processes in list order and the
    position of the current one. Processes are known by their positions; only a fork moves
    them. */
module RoundRobin {
  import opened ProcessStates

  datatype Sched = Sched(states: seq<ProcessState>, current: nat)

  datatype Event = Tick | Sleep | Exit | Wakeup(p: nat) | Fork

  predicate Valid(s: Sched) {
    s.current < |s.states|
  }

  predicate Runnable(s: Sched) {
    RUNNING in s.states
  }

  /** How far process k lies behind the current one in the circle; the current one itself
      is a whole round away. */
  function Distance(s: Sched, k: nat): (d: nat)
    requires Valid(s) && k < |s.states|
    ensures 1 <= d <= |s.states| && (d == |s.states| <==> k == s.current)
  {
    if k > s.current then k - s.current else k + |s.states| - s.current
  }

  /** The process d places behind the current one. */
  function Ahead(s: Sched, d: nat): (k: nat)
    requires Valid(s) && 1 <= d <= |s.states|
    ensures k < |s.states| && Distance(s, k) == d
  {
    if s.current + d < |s.states| then s.current + d else s.current + d - |s.states|
  }

  lemma AheadDistance(s: Sched, k: nat)
    requires Valid(s) && k < |s.states|
    ensures Ahead(s, Distance(s, k)) == k
  {
  }

  /** What FindNextTask promises: the nearest RUNNING process after the current one. */
  ghost predicate IsNext(s: Sched, k: nat)
    requires Valid(s)
  {
    && k < |s.states| && s.states[k] == RUNNING
    && forall d :: 1 <= d < Distance(s, k) ==> s.states[Ahead(s, d)] != RUNNING
  }

  function Search(s: Sched, d: nat): (k: nat)
    requires Valid(s) && 1 <= d <= |s.states|
    requires exists e :: d <= e <= |s.states| && s.states[Ahead(s, e)] == RUNNING
    ensures k < |s.states| && s.states[k] == RUNNING && d <= Distance(s, k)
    ensures forall e :: d <= e < Distance(s, k) ==> s.states[Ahead(s, e)] != RUNNING
    decreases |s.states| - d
  {
    if s.states[Ahead(s, d)] == RUNNING then Ahead(s, d) else Search(s, d + 1)
  }

  function Next(s: Sched): (k: nat)
    requires Valid(s) && Runnable(s)
    ensures IsNext(s, k)
  {
    SomeoneAhead(s);
    Search(s, 1)
  }

  lemma SomeoneAhead(s: Sched)
    requires Valid(s) && Runnable(s)
    ensures exists e :: 1 <= e <= |s.states| && s.states[Ahead(s, e)] == RUNNING
  {
    var k :| 0 <= k < |s.states| && s.states[k] == RUNNING;
    AheadDistance(s, k);
  }

  /** There is only one nearest RUNNING process; it is the current one only if no other runs. */
  lemma NextUnique(s: Sched, k: nat)
    requires Valid(s) && IsNext(s, k)
    ensures Runnable(s) && k == Next(s)
    ensures k == s.current <==>
              (s.states[s.current] == RUNNING &&
               forall j :: 0 <= j < |s.states| && j != s.current ==> s.states[j] != RUNNING)
  {
    var n := Next(s);
    AheadDistance(s, k);
    AheadDistance(s, n);
    forall j: nat | j < |s.states| && j != s.current && k == s.current ensures s.states[j] != RUNNING {
      AheadDistance(s, j);
    }
  }

  /** The same by places on the list alone: k is RUNNING, and nobody from behind the current
      process round to before k is. */
  lemma IsNextMeans(s: Sched, k: nat)
    requires Valid(s)
    ensures IsNext(s, k) <==>
              && k < |s.states| && s.states[k] == RUNNING
              && forall m: nat :: m < |s.states| ==>
                   (if s.current < k then s.current < m < k else m > s.current || m < k) ==> s.states[m] != RUNNING
  {
    if IsNext(s, k) {
      forall m: nat | m < |s.states| && (if s.current < k then s.current < m < k else m > s.current || m < k)
        ensures s.states[m] != RUNNING
      {
        AheadDistance(s, m);
      }
    }
  }

  // ---------------------------------------------------------------- events

  /** The state in which the event looks for the next process. */
  function Before(s: Sched, e: Event): Sched
    requires Valid(s)
  {
    match e
    case Sleep => s.(states := s.states[s.current := SLEEP])
    case Exit => s.(states := s.states[s.current := ZOMBIE])
    case _ => s
  }

  predicate Schedules(e: Event) {
    e.Tick? || e.Sleep? || e.Exit?
  }

  /** FindNextTask would spin forever if nobody were RUNNING, so such a step never ends. */
  predicate Enabled(s: Sched, e: Event) {
    Valid(s) && (Schedules(e) ==> Runnable(Before(s, e))) && (e.Wakeup? ==> e.p < |s.states|)
  }

  function Step(s: Sched, e: Event): (r: Sched)
    requires Enabled(s, e)
    ensures Valid(r)
  {
    match e
    case Wakeup(p) => s.(states := s.states[p := RUNNING])
    case Fork => s.(states := s.states[..s.current + 1] + [s.states[s.current]] + s.states[s.current + 1..])
    case _ => Before(s, e).(current := Next(Before(s, e)))
  }

  /** Where the event leaves process k: a fork puts the child right behind its parent. */
  function Moved(s: Sched, e: Event, k: nat): nat {
    if e.Fork? && k > s.current then k + 1 else k
  }

  predicate Run(s: Sched, events: seq<Event>)
    decreases |events|
  {
    Valid(s) && (events != [] ==> Enabled(s, events[0]) && Run(Step(s, events[0]), events[1..]))
  }

  /** Process k is current now or becomes current during the run. */
  predicate BecomesCurrent(s: Sched, events: seq<Event>, k: nat)
    requires Run(s, events)
    decreases |events|
  {
    s.current == k || (events != [] && BecomesCurrent(Step(s, events[0]), events[1..], Moved(s, events[0], k)))
  }

  function Count(events: seq<Event>, forks: bool): nat {
    if events == [] then 0
    else (if (if forks then events[0].Fork? else Schedules(events[0])) then 1 else 0) + Count(events[1..], forks)
  }

  /** One event that does not make process k current brings it nearer by one if it
      schedules, pushes it one place back if it forks, and keeps it RUNNING. */
  lemma StepApproaches(s: Sched, e: Event, k: nat)
    requires Enabled(s, e) && k < |s.states| && k != s.current && s.states[k] == RUNNING
    requires Step(s, e).current != Moved(s, e, k)
    ensures var t, m := Step(s, e), Moved(s, e, k);
            && m < |t.states| && t.states[m] == RUNNING
            && Distance(t, m) + (if Schedules(e) then 1 else 0) <= Distance(s, k) + (if e.Fork? then 1 else 0)
  {
    if Schedules(e) {
      var b := Before(s, e);
      AheadDistance(b, k);
      AheadDistance(b, Next(b));
    }
  }

  /** Bounded waiting: a process that is RUNNING at distance d becomes current within d + f
      calls of Schedule, f being the number of forks meanwhile. */
  lemma {:induction false} BoundedWaiting(s: Sched, events: seq<Event>, k: nat)
    requires Run(s, events) && k < |s.states| && k != s.current && s.states[k] == RUNNING
    requires Count(events, false) >= Distance(s, k) + Count(events, true)
    ensures BecomesCurrent(s, events, k)
    decreases |events|
  {
    var t, m := Step(s, events[0]), Moved(s, events[0], k);
    if t.current != m {
      StepApproaches(s, events[0], k);
      BoundedWaiting(t, events[1..], m);
    }
  }

  /** Process k is woken during the run. */
  predicate Woken(s: Sched, events: seq<Event>, k: nat)
    requires Run(s, events)
    decreases |events|
  {
    events != [] && (events[0] == Wakeup(k) || Woken(Step(s, events[0]), events[1..], Moved(s, events[0], k)))
  }

  /** One event that does not wake a process that is not RUNNING leaves it so, and does not
      make it current. */
  lemma StepLeavesOut(s: Sched, e: Event, k: nat)
    requires Enabled(s, e) && k < |s.states| && k != s.current && s.states[k] != RUNNING && e != Wakeup(k)
    ensures var t, m := Step(s, e), Moved(s, e, k);
            m < |t.states| && t.states[m] == s.states[k] && m != t.current
  {
  }

  /** A process that is not RUNNING stays off the processor until it is woken. */
  lemma {:induction false} StaysOut(s: Sched, events: seq<Event>, k: nat)
    requires Run(s, events) && k < |s.states| && k != s.current && s.states[k] != RUNNING
    requires !Woken(s, events, k)
    ensures !BecomesCurrent(s, events, k)
    decreases |events|
  {
    if events != [] {
      StepLeavesOut(s, events[0], k);
      StaysOut(Step(s, events[0]), events[1..], Moved(s, events[0], k));
    }
  }

  /** A process that exits, or goes to sleep, is never current again unless it is woken. */
  lemma LeavingIsFinal(s: Sched, e: Event, events: seq<Event>)
    requires Enabled(s, e) && (e.Exit? || e.Sleep?) && Run(Step(s, e), events)
    requires !Woken(Step(s, e), events, s.current)
    ensures Step(s, e).states == s.states[s.current := if e.Exit? then ZOMBIE else SLEEP]
    ensures !BecomesCurrent(Step(s, e), events, s.current)
  {
    StaysOut(Step(s, e), events, s.current);
  }
}
