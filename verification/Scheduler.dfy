/** scheduler.c in its own form: processes linked through an embedded list node into the
    circle of processList, and the global currentProcess. */
module Scheduler {
  import opened ProcessStates
  import opened RoundRobin
  import opened Lists

  class Process {
    const processes: ListNode
    var state: ProcessState

    constructor (node: ListNode, state: ProcessState)
      ensures processes == node && this.state == state
    {
      processes := node;
      this.state := state;
    }
  }

  function Nodes(order: seq<Process>): (l: seq<ListNode>)
    ensures |l| == |order| && forall k :: 0 <= k < |l| ==> l[k] == order[k].processes
  {
    seq(|order|, k requires 0 <= k < |order| => order[k].processes)
  }

  /** The order with `child` right behind place k. */
  function Behind(order: seq<Process>, k: nat, child: Process): seq<Process>
    requires k < |order|
  {
    order[..k + 1] + [child] + order[k + 1..]
  }

  /** Walking the list from place i round, skipping the guard, place j holds the first RUNNING
      process; it is place i itself only after a whole round. */
  ghost predicate FirstRunning(order: seq<Process>, i: nat, j: nat)
    reads order
  {
    && i < |order| && j < |order| && order[j].state == RUNNING
    && forall m: nat :: m < |order| ==>
         (if i < j then i < m < j else m > i || m < j) ==> order[m].state != RUNNING
  }

  ghost function Position(order: seq<Process>, p: Process): (k: nat)
    requires p in order
    ensures k < |order| && order[k] == p
  {
    var k: nat :| k < |order| && order[k] == p;
    k
  }

  class ProcessTable {
    const processList: ListNode
    var currentProcess: Process
    /** LIST_ENTRY: the process a list node is embedded in. */
    var entry: map<ListNode, Process>
    /** The processes in list order from the guard. */
    ghost var order: seq<Process>

    /** ProcessInit: one RUNNING process on the list. */
    constructor ()
      ensures Valid() && |order| == 1 && View() == Sched([RUNNING], 0)
      ensures fresh(processList) && fresh(currentProcess) && fresh(currentProcess.processes)
    {
      var guard := new ListNode();
      var node := new ListNode();
      var p := new Process(node, RUNNING);
      assert Joined([guard], 0);
      ListAdd(node, guard, [guard], 0);
      processList, currentProcess, entry, order := guard, p, map[node := p], [p];
      new;
      assert [processList][..1] + [node] + [processList][1..] == [processList] + Nodes(order);
      assert States() == [RUNNING];
    }

    ghost predicate Valid()
      reads this, processList, order, Nodes(order)
    {
      && Circle([processList] + Nodes(order))
      && (forall k :: 0 <= k < |order| ==> order[k].processes in entry && entry[order[k].processes] == order[k])
      && currentProcess in order
    }

    ghost function States(): (s: seq<ProcessState>)
      reads this, order
      ensures |s| == |order|
      ensures forall k :: 0 <= k < |s| ==> s[k] == order[k].state
    {
      var l := order;
      seq(|l|, k requires 0 <= k < |l| reads l => l[k].state)
    }

    ghost function View(): (s: Sched)
      requires Valid()
      reads this, processList, order, Nodes(order)
      ensures RoundRobin.Valid(s) && |s.states| == |order|
    {
      Sched(States(), Position(order, currentProcess))
    }

    lemma OrderDistinct(i: nat, j: nat)
      requires Valid() && i < |order| && j < |order| && order[i] == order[j]
      ensures i == j
    {
      var s := [processList] + Nodes(order);
      assert s[i + 1] == order[i].processes && s[j + 1] == order[j].processes;
    }

    /** Walk the circle from p, skipping the guard, to the first RUNNING process. */
    method FindNextTask(p: Process) returns (next: Process)
      requires Valid() && p in order && RUNNING in States()
      ensures next in order
      ensures FirstRunning(order, Position(order, p), Position(order, next))
      ensures Position(order, next) == Next(Sched(States(), Position(order, p)))
    {
      ghost var s, n, i := [processList] + Nodes(order), |order|, Position(order, p);
      var pl := p.processes;
      ghost var at, round := i + 1, false;
      while true
        invariant 0 <= at <= n && pl == s[at]
        invariant if round then at <= i else at > i
        invariant forall m: nat :: (if round then i < m < n || m < at else i < m < at) ==> order[m].state != RUNNING
        decreases if round then 0 else 1, n - at
      {
        assert Joined(s, at);
        pl := pl.next;
        round := round || at == n;
        at := After(at, n + 1);
        NodeEntry(at);
        if pl != processList && entry[pl].state == RUNNING {
          break;
        }
        SomeoneRuns(i, at, round);
      }
      next := entry[pl];
      NearestIs(i, at - 1);
    }

    /** Behind place 0, the guard's, stands the node of a process. */
    lemma NodeEntry(at: nat)
      requires Valid() && at <= |order|
      ensures var node := ([processList] + Nodes(order))[at];
              if at == 0 then node == processList
              else node != processList && node in entry && entry[node] == order[at - 1]
    {
      var s := [processList] + Nodes(order);
      assert at > 0 ==> s[at] == order[at - 1].processes && s[0] != s[at];
    }

    /** A whole round finds somebody. */
    lemma SomeoneRuns(i: nat, at: nat, round: bool)
      requires Valid() && i < |order| && at <= |order| && RUNNING in States()
      requires forall m: nat :: (if round then i < m < |order| || m < at else i < m < at) ==> order[m].state != RUNNING
      ensures round ==> at <= i
    {
      var k :| 0 <= k < |order| && States()[k] == RUNNING;
    }

    lemma NearestIs(i: nat, j: nat)
      requires Valid() && FirstRunning(order, i, j)
      ensures Position(order, order[j]) == j == Next(Sched(States(), i))
    {
      PositionIs(j);
      IsNextMeans(Sched(States(), i), j);
      NextUnique(Sched(States(), i), j);
    }

    lemma PositionIs(k: nat)
      requires Valid() && k < |order|
      ensures Position(order, order[k]) == k
    {
      OrderDistinct(Position(order, order[k]), k);
    }

    method Schedule()
      requires Valid() && RUNNING in States()
      modifies `currentProcess
      ensures Valid() && order == old(order) && forall p :: p in order ==> p.state == old(p.state)
      ensures FirstRunning(order, old(Position(order, currentProcess)), Position(order, currentProcess))
      ensures IsNext(old(View()), Position(order, currentProcess))
      ensures View() == Step(old(View()), Tick)
    {
      var prev := currentProcess;
      var next := FindNextTask(prev);
      if prev == next {
        return;
      }
      currentProcess := next;
    }

    method Sleep()
      requires Valid() && Enabled(View(), RoundRobin.Sleep)
      modifies currentProcess, `currentProcess
      ensures Valid() && order == old(order) && old(currentProcess).state == SLEEP
      ensures forall p :: p in order && p != old(currentProcess) ==> p.state == old(p.state)
      ensures FirstRunning(order, old(Position(order, currentProcess)), Position(order, currentProcess))
      ensures View() == Step(old(View()), RoundRobin.Sleep)
    {
      ghost var v := View();
      currentProcess.state := SLEEP;
      assert States() == v.states[v.current := SLEEP] by { OnlyState(v.states, v.current); }
      Schedule();
    }

    method SysExit()
      requires Valid() && Enabled(View(), Exit)
      modifies currentProcess, `currentProcess
      ensures Valid() && order == old(order) && old(currentProcess).state == ZOMBIE
      ensures forall p :: p in order && p != old(currentProcess) ==> p.state == old(p.state)
      ensures FirstRunning(order, old(Position(order, currentProcess)), Position(order, currentProcess))
      ensures View() == Step(old(View()), Exit)
    {
      ghost var v := View();
      currentProcess.state := ZOMBIE;
      assert States() == v.states[v.current := ZOMBIE] by { OnlyState(v.states, v.current); }
      Schedule();
    }

    method Wakeup(p: Process)
      requires Valid() && p in order
      modifies p
      ensures Valid() && order == old(order) && currentProcess == old(currentProcess) && p.state == RUNNING
      ensures forall q :: q in order && q != p ==> q.state == old(q.state)
      ensures View() == Step(old(View()), RoundRobin.Wakeup(Position(order, p)))
    {
      ghost var v, k := View(), Position(order, p);
      p.state := RUNNING;
      assert States() == v.states[k := RUNNING] by { OnlyState(v.states, k); }
    }

    /** Only the k-th process can differ from the states given. */
    lemma OnlyState(states: seq<ProcessState>, k: nat)
      requires Valid() && |states| == |order| && k < |order|
      requires forall j :: 0 <= j < |order| && order[j] != order[k] ==> order[j].state == states[j]
      ensures States() == states[k := order[k].state]
    {
      forall j: nat | j < |order| && j != k ensures order[j] != order[k] {
        if order[j] == order[k] {
          OrderDistinct(j, k);
          assert false;
        }
      }
    }

    /** What fork does to the list: a copy of the current process goes in right behind it. */
    method Fork() returns (child: Process)
      requires Valid()
      modifies this, processList, Nodes(order)
      ensures Valid() && fresh(child) && fresh(child.processes) && child.state == currentProcess.state
      ensures forall p :: p in old(order) ==> p.state == old(p.state)
      ensures currentProcess == old(currentProcess) && View() == Step(old(View()), RoundRobin.Fork)
      ensures var k := old(Position(order, currentProcess));
              order == old(order)[..k + 1] + [child] + old(order)[k + 1..]
    {
      ghost var v, was := View(), order;
      var node := new ListNode();
      child := new Process(node, currentProcess.state);
      LinkBehindCurrent(child);
      ForkedView(v, was, child);
    }

    /** The view after a child in its parent's state was linked in. */
    lemma ForkedView(v: Sched, was: seq<Process>, child: Process)
      requires Valid() && RoundRobin.Valid(v) && |was| == |v.states|
      requires order == was[..v.current + 1] + [child] + was[v.current + 1..] && currentProcess == was[v.current]
      requires forall j :: 0 <= j < |was| ==> was[j].state == v.states[j]
      requires child.state == v.states[v.current]
      ensures View() == Step(v, RoundRobin.Fork)
    {
      StatesBehind(v.states, was, v.current, child);
      assert order[v.current] == currentProcess;
      PositionIs(v.current);
    }

    lemma StatesBehind(states: seq<ProcessState>, was: seq<Process>, k: nat, child: Process)
      requires |was| == |states| && k < |was| && child.state == states[k]
      requires order == was[..k + 1] + [child] + was[k + 1..]
      requires forall j :: 0 <= j < |was| ==> was[j].state == states[j]
      ensures States() == states[..k + 1] + [states[k]] + states[k + 1..]
    {
      forall j: nat | j < |order|
        ensures States()[j] == if j <= k then states[j] else if j == k + 1 then states[k] else states[j - 1]
      {
        if j <= k {
          assert order[j] == was[j];
        } else if j == k + 1 {
          assert order[j] == child;
        } else {
          assert order[j] == was[j - 1];
        }
      }
    }

    /** CopyProcess: link a new process in right behind the current one. */
    method LinkBehindCurrent(child: Process)
      requires Valid() && child !in order && child.processes !in [processList] + Nodes(order)
      modifies this, processList, Nodes(order), child.processes
      ensures Valid() && currentProcess == old(currentProcess)
      ensures var k := old(Position(order, currentProcess));
              order == old(order)[..k + 1] + [child] + old(order)[k + 1..]
    {
      ghost var s, k := [processList] + Nodes(order), Position(order, currentProcess);
      ghost var more := Behind(order, k, child);
      EntriesBehind(entry, order, k, child);
      NodesInsert(processList, order, child, k);
      assert more[k] == currentProcess;
      assert s[k + 1] == currentProcess.processes && Joined(s, k + 1);
      ListAdd(child.processes, currentProcess.processes, s, k + 1);
      assert Circle([processList] + Nodes(more));
      entry, order := entry[child.processes := child], more;
    }
  }

  lemma EntriesBehind(entry: map<ListNode, Process>, order: seq<Process>, k: nat, child: Process)
    requires k < |order| && child.processes !in Nodes(order)
    requires forall j :: 0 <= j < |order| ==> order[j].processes in entry && entry[order[j].processes] == order[j]
    ensures var t, more := entry[child.processes := child], Behind(order, k, child);
            forall j :: 0 <= j < |more| ==> more[j].processes in t && t[more[j].processes] == more[j]
  {
    forall j | 0 <= j < |order| ensures order[j].processes != child.processes {
      assert Nodes(order)[j] in Nodes(order);
    }
  }

  lemma NodesInsert(guard: ListNode, order: seq<Process>, child: Process, k: nat)
    requires k < |order|
    ensures var s := [guard] + Nodes(order);
            s[..k + 2] + [child.processes] + s[k + 2..] == [guard] + Nodes(Behind(order, k, child))
  {
  }
}
