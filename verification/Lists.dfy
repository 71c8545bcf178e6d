/** list.c and queue.c: the circular intrusive doubly linked list, and the queue on it. */
module Lists {

  /** struct List, embedded in the structure it links. */
  class ListNode {
    var prev: ListNode
    var next: ListNode

    /** LIST_INIT: a circle of one. */
    constructor ()
      ensures prev == this && next == this
    {
      prev, next := this, this;
    }
  }

  function After(k: nat, n: nat): nat {
    if k + 1 == n then 0 else k + 1
  }

  /** The k-th node and its successor in the circle point at each other. */
  ghost predicate Joined(s: seq<ListNode>, k: nat)
    requires k < |s|
    reads s
  {
    s[k].next == s[After(k, |s|)] && s[After(k, |s|)].prev == s[k]
  }

  /** The nodes of a circle, from any one of them round. */
  ghost predicate Circle(s: seq<ListNode>)
    reads s
  {
    && s != []
    && (forall i, j :: 0 <= i < j < |s| ==> s[i] != s[j])
    && (forall k: nat :: k < |s| ==> Joined(s, k))
  }

  /** Insert `added` right after the k-th node. */
  method ListAdd(added: ListNode, prev: ListNode, ghost s: seq<ListNode>, ghost k: nat)
    requires Circle(s) && k < |s| && s[k] == prev && added !in s
    modifies prev, prev.next, added
    ensures Circle(s[..k + 1] + [added] + s[k + 1..])
    ensures added.prev == prev && added.next == old(prev.next)
  {
    assert Joined(s, k);
    var next := prev.next;
    prev.next := added;
    added.prev := prev;
    next.prev := added;
    added.next := next;

    ghost var t := s[..k + 1] + [added] + s[k + 1..];
    forall i: nat | i < |t| ensures Joined(t, i) {
      var j := if i <= k then i else i - 1;
      assert old(Joined(s, j));
      if i == k {
        assert t[i] == prev && t[After(i, |t|)] == added;
      } else if i == k + 1 {
        assert t[i] == added && t[After(i, |t|)] == next;
      } else {
        assert t[i] == s[j] != prev && t[After(i, |t|)] == s[After(j, |s|)] != next;
      }
    }
  }

  /** Unlink the k-th node of a circle of at least two; the node keeps its own pointers. */
  method ListDelete(deleted: ListNode, ghost s: seq<ListNode>, ghost k: nat)
    requires Circle(s) && k < |s| && s[k] == deleted && |s| >= 2
    modifies deleted.prev, deleted.next
    ensures Circle(s[..k] + s[k + 1..])
    ensures deleted.prev == old(deleted.prev) && deleted.next == old(deleted.next)
  {
    ghost var before := if k == 0 then |s| - 1 else k - 1;
    assert Joined(s, k) && Joined(s, before);
    var prev := deleted.prev;
    var next := deleted.next;
    prev.next := next;
    next.prev := prev;

    ghost var t := s[..k] + s[k + 1..];
    forall i: nat | i < |t| ensures Joined(t, i) {
      var j := if i < k then i else i + 1;
      var m := After(j, |s|);
      assert old(Joined(s, j)) && t[i] == s[j];
      if m == k {
        assert j == before && t[After(i, |t|)] == next;
      } else {
        assert t[After(i, |t|)] == s[m] && s[j] != prev && s[m] != next;
      }
    }
  }

  /** The order of a circle determines every pointer in it. */
  twostate lemma CircleDetermines(s: seq<ListNode>)
    requires old(Circle(s)) && Circle(s)
    ensures forall n :: n in s ==> n.prev == old(n.prev) && n.next == old(n.next)
  {
    forall k: nat | k < |s| ensures s[k].prev == old(s[k].prev) && s[k].next == old(s[k].next) {
      var before := if k == 0 then |s| - 1 else k - 1;
      assert Joined(s, k) && old(Joined(s, k)) && Joined(s, before) && old(Joined(s, before));
    }
  }

  /** Inserting and removing undo each other, pointer for pointer. */
  method AddThenDelete(added: ListNode, prev: ListNode, ghost s: seq<ListNode>, ghost k: nat)
    requires Circle(s) && k < |s| && s[k] == prev && added !in s
    modifies prev, prev.next, added
    ensures Circle(s) && forall n :: n in s ==> n.prev == old(n.prev) && n.next == old(n.next)
  {
    assert Joined(s, k);
    ghost var t := s[..k + 1] + [added] + s[k + 1..];
    ListAdd(added, prev, s, k);
    assert t[k + 1] == added && t[..k + 1] + t[k + 2..] == s;
    ListDelete(added, t, k + 1);
    CircleDetermines(s);
  }

  /** struct Queue: a guard node and a count; the entries follow the guard round the circle. */
  class Queue {
    const guard: ListNode
    var size: int
    ghost var contents: seq<ListNode>
    ghost var pushes: seq<ListNode>
    ghost var pops: seq<ListNode>

    ghost predicate Valid()
      reads this, guard, contents
    {
      && Circle([guard] + contents)
      && size == |contents|
      && pushes == pops + contents
    }

    /** QUEUE_INIT. */
    constructor ()
      ensures Valid() && contents == [] && pushes == [] && fresh(guard)
    {
      size := 0;
      contents, pushes, pops := [], [], [];
      guard := new ListNode();
      new;
      assert Joined([guard] + contents, 0);
    }

    /** QUEUE_FRONT. */
    method QueueFront() returns (front: ListNode?)
      requires Valid()
      ensures front == if contents == [] then null else contents[0]
    {
      assert Joined([guard] + contents, 0);
      front := if size == 0 then null else guard.next;
    }

    method QueuePush(pushed: ListNode)
      requires Valid() && pushed != guard && pushed !in contents
      modifies this, guard, contents, pushed
      ensures Valid()
      ensures contents == old(contents) + [pushed]
      ensures pushes == old(pushes) + [pushed] && pops == old(pops)
    {
      ghost var s := [guard] + contents;
      assert Joined(s, |s| - 1);
      assert s[..|s|] + [pushed] + s[|s|..] == [guard] + (contents + [pushed]);
      ListAdd(pushed, guard.prev, s, |s| - 1);
      size := size + 1;
      contents := contents + [pushed];
      pushes := pushes + [pushed];
    }

    method QueuePop()
      requires Valid()
      modifies this, guard, contents
      ensures Valid()
      ensures old(contents) == [] ==> contents == [] && pops == old(pops)
      ensures old(contents) != [] ==> contents == old(contents)[1..] && pops == old(pops) + [old(contents)[0]]
      ensures pushes == old(pushes)
    {
      if size == 0 {
        return;
      }
      ghost var s := [guard] + contents;
      assert Joined(s, 0) && Joined(s, 1);
      assert s[..1] + s[2..] == [guard] + contents[1..];
      ListDelete(guard.next, s, 1);
      size := size - 1;
      pops := pops + [contents[0]];
      contents := contents[1..];
    }
  }
}
