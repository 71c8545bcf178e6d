/** kHeap.c: the kernel heap, a buddy allocator over 2^max blocks that merges on free.
    Its lists are stacks: AddTokHeapOrder never links the old front back. */
module KHeap {
  import opened Util
  import opened Buddy
  import opened BuddyRuns

  const BLOCK_SIZE: nat := 256

  datatype Block = Block(order: nat, isAllocated: bool, prev: Link, next: Link)

  /** kHeapBlocks and kHeapOrder. */
  datatype State = State(blocks: seq<Block>, heads: seq<Link>)

  const DEFAULT: Block := Block(0, false, Null, Null)

  predicate InBounds(link: Link, n: nat) {
    link == Null || link.id < n
  }

  /** The array shapes, and every pointer into kHeapBlocks. */
  predicate Sane(st: State, max: nat) {
    && |st.blocks| == Pow2(max)
    && |st.heads| == max + 1
    && (forall o :: 0 <= o <= max ==> InBounds(st.heads[o], |st.blocks|))
    && (forall i :: 0 <= i < |st.blocks| ==>
          && st.blocks[i].order <= max
          && InBounds(st.blocks[i].prev, |st.blocks|) && InBounds(st.blocks[i].next, |st.blocks|))
  }

  // ---------------------------------------------------------------- the literal operations

  function Add(st: State, max: nat, order: nat, id: nat): (r: State)
    requires Sane(st, max) && order <= max && id < |st.blocks|
    ensures Sane(r, max)
  {
    State(st.blocks[id := Block(order, false, Null, st.heads[order])], st.heads[order := At(id)])
  }

  function Delete(st: State, max: nat, order: nat, id: nat): (r: State)
    requires Sane(st, max) && order <= max && id < |st.blocks|
    ensures Sane(r, max)
  {
    var (prev, next) := (st.blocks[id].prev, st.blocks[id].next);
    var heads := if prev == Null then st.heads[order := next] else st.heads;
    var one := if prev == Null then st.blocks else st.blocks[prev.id := st.blocks[prev.id].(next := next)];
    var two := if next == Null then one else one[next.id := one[next.id].(prev := prev)];
    State(two[id := DEFAULT], heads)
  }

  /** One round of the merge loop: take a block and its buddy out of list o and add the
      lower one to the list above. */
  function Absorb(st: State, max: nat, id: nat, o: nat): (r: State)
    requires Sane(st, max) && o < max && id < |st.blocks|
    ensures Sane(r, max)
  {
    FlipBelow(id, o, max);
    var buddy := Flip(id, o);
    var lower := if id < buddy then id else buddy;
    Add(Delete(Delete(st, max, o, id), max, o, buddy), max, o + 1, lower)
  }

  /** The merge loop of kfree, which goes on as long as the buddy's first block is not allocated. */
  function Merge(st: State, max: nat, id: nat, o: nat): (r: State)
    requires Sane(st, max) && o <= max && id < |st.blocks|
    ensures Sane(r, max)
    decreases max - o
  {
    if o == max then st
    else
      FlipBelow(id, o, max);
      var buddy := Flip(id, o);
      if st.blocks[buddy].isAllocated then st
      else Merge(Absorb(st, max, id, o), max, if id < buddy then id else buddy, o + 1)
  }

  function Kfree(st: State, max: nat, start: nat, address: nat): (r: State)
    requires Sane(st, max)
    ensures Sane(r, max)
  {
    if address < start || start + BLOCK_SIZE * Pow2(max) <= address then st
    else
      var id := (address - start) / BLOCK_SIZE;
      if !st.blocks[id].isAllocated then st
      else
        var order := st.blocks[id].order;
        Merge(Add(st, max, order, id), max, id, order)
  }

  /** The first order from r up whose list has a front. */
  function FirstHead(heads: seq<Link>, r: nat): (c: nat)
    requires r <= |heads|
    ensures r <= c <= |heads|
    decreases |heads| - r
  {
    if r == |heads| || heads[r] != Null then r else FirstHead(heads, r + 1)
  }

  /** One round of the split loop: the front of list c becomes two blocks of order o = c - 1,
      the lower one in front. */
  function Halved(st: State, max: nat, c: nat, o: nat, front: nat, buddy: nat): (r: State)
    requires Sane(st, max) && c == o + 1 <= max && front < |st.blocks| && buddy < |st.blocks|
    ensures Sane(r, max)
  {
    Add(Add(Delete(st, max, c, front), max, o, buddy), max, o, front)
  }

  /** The split loop of kmalloc. Both guards that stop it early stand for accesses outside
      the arrays; a state that represents a heap never meets them (KmallocRefines). */
  function Cut(st: State, max: nat, c: nat, r: nat): (cut: State)
    requires Sane(st, max) && r <= c <= max
    ensures Sane(cut, max)
    decreases c
  {
    if c == r || st.heads[c] == Null then st
    else
      var front := st.heads[c].id;
      var buddy := front + Pow2(c - 1);
      if buddy >= |st.blocks| then st else Cut(Halved(st, max, c, c - 1, front, buddy), max, c - 1, r)
  }

  function RequestedBlocks(size: nat): (n: nat)
    requires size >= 1
    ensures 1 <= n && (n - 1) * BLOCK_SIZE < size <= n * BLOCK_SIZE
  {
    if size % BLOCK_SIZE == 0 then size / BLOCK_SIZE else size / BLOCK_SIZE + 1
  }

  /** Unlist a front block and mark it allocated. */
  function Taken(st: State, max: nat, order: nat, front: nat): (r: State)
    requires Sane(st, max) && order <= max && front < |st.blocks|
    ensures Sane(r, max)
  {
    var rest := Delete(st, max, order, front);
    rest.(blocks := rest.blocks[front := rest.blocks[front].(order := order, isAllocated := true)])
  }

  function Kmalloc(st: State, max: nat, start: nat, size: nat): (r: (State, nat))
    requires Sane(st, max) && size >= 1
    ensures Sane(r.0, max)
  {
    if size > BLOCK_SIZE * Pow2(max) then (st, 0)
    else
      var order := CeilLog2(RequestedBlocks(size));
      OrderFits(size, max);
      var c := FirstHead(st.heads, order);
      if c > max then (st, 0)
      else
        var cut := Cut(st, max, c, order);
        if cut.heads[order] == Null then (cut, 0)
        else
          var front := cut.heads[order].id;
          (Taken(cut, max, order, front), start + BLOCK_SIZE * front)
  }

  lemma OrderFits(size: nat, max: nat)
    requires 1 <= size <= BLOCK_SIZE * Pow2(max)
    ensures CeilLog2(RequestedBlocks(size)) <= max
  {
    CeilLog2Least(RequestedBlocks(size), max);
  }

  /** Deletion joins the neighbours, if any, or moves the head on, and clears the block. */
  lemma DeleteRelinks(st: State, max: nat, order: nat, id: nat)
    requires Sane(st, max) && order <= max && id < |st.blocks|
    ensures var r, prev, next := Delete(st, max, order, id), st.blocks[id].prev, st.blocks[id].next;
            && r.blocks[id] == Block(0, false, Null, Null)
            && r.heads == (if prev == Null then st.heads[order := next] else st.heads)
            && (prev != Null && prev.id != id ==> r.blocks[prev.id].next == next)
            && (next != Null && next.id != id ==> r.blocks[next.id].prev == prev)
            && (forall i :: 0 <= i < |st.blocks| && i != id && At(i) != prev && At(i) != next ==>
                  r.blocks[i] == st.blocks[i])
  {
  }

  // ---------------------------------------------------------------- what a state stands for

  ghost predicate Node(blocks: seq<Block>, o: nat, l: seq<nat>, k: nat)
    requires k < |l|
  {
    && l[k] < |blocks|
    && blocks[l[k]] == Block(o, false, Null, if k + 1 == |l| then Null else At(l[k + 1]))
  }

  ghost predicate Stack(st: State, o: nat, l: seq<nat>)
    requires o < |st.heads|
  {
    && st.heads[o] == (if l == [] then Null else At(l[0]))
    && NoDuplicates(l)
    && forall k: nat :: k < |l| ==> Node(st.blocks, o, l, k)
  }

  ghost predicate InSomeList(lists: Lists, i: nat) {
    exists o: nat :: Listed(lists, i, o)
  }

  /** st spells out the lists, marks the live blocks with their orders, and leaves every
      other block in its initial state. */
  ghost predicate Represents(st: State, h: Heap, max: nat) {
    && |st.blocks| == Pow2(max)
    && |st.heads| == |h.lists| == max + 1
    && (forall o: nat :: o <= max ==> Stack(st, o, h.lists[o]))
    && (forall s :: s in h.live ==> s < |st.blocks| && st.blocks[s] == Block(h.live[s], true, Null, Null))
    && (forall i: nat :: i < |st.blocks| && i !in h.live && !InSomeList(h.lists, i) ==> st.blocks[i] == DEFAULT)
  }

  lemma ListedNode(st: State, h: Heap, max: nat, s: nat, o: nat) returns (k: nat)
    requires Represents(st, h, max) && Listed(h.lists, s, o)
    ensures k < |h.lists[o]| && h.lists[o][k] == s && Node(st.blocks, o, h.lists[o], k)
    ensures s < |st.blocks| && st.blocks[s].order == o && !st.blocks[s].isAllocated && s !in h.live
  {
    k :| 0 <= k < |h.lists[o]| && h.lists[o][k] == s;
    assert Stack(st, o, h.lists[o]);
  }

  lemma ListedOnce(st: State, h: Heap, max: nat, s: nat, o: nat, q: nat)
    requires Represents(st, h, max) && Listed(h.lists, s, o) && Listed(h.lists, s, q)
    ensures o == q
  {
    var _ := ListedNode(st, h, max, s, o);
    var _ := ListedNode(st, h, max, s, q);
  }

  /** The lists and the live blocks determine every head and every field. */
  lemma RepresentsUnique(st: State, other: State, h: Heap, max: nat)
    requires Represents(st, h, max) && Represents(other, h, max)
    ensures st == other
  {
    forall o | 0 <= o < |st.heads| ensures st.heads[o] == other.heads[o] {
      assert Stack(st, o, h.lists[o]) && Stack(other, o, h.lists[o]);
    }
    forall i | 0 <= i < |st.blocks| ensures st.blocks[i] == other.blocks[i] {
      if InSomeList(h.lists, i) {
        var o: nat :| Listed(h.lists, i, o);
        var k := ListedNode(st, h, max, i, o);
        assert Stack(other, o, h.lists[o]);
        assert Node(other.blocks, o, h.lists[o], k);
      }
    }
    assert st.heads == other.heads && st.blocks == other.blocks;
  }

  lemma RepresentsSane(st: State, h: Heap, max: nat)
    requires Represents(st, h, max) && forall s :: s in h.live ==> h.live[s] <= max
    ensures Sane(st, max)
  {
    forall o | 0 <= o <= max ensures InBounds(st.heads[o], |st.blocks|) {
      assert Stack(st, o, h.lists[o]);
      assert h.lists[o] != [] ==> Node(st.blocks, o, h.lists[o], 0);
    }
    forall i | 0 <= i < |st.blocks|
      ensures st.blocks[i].order <= max
      ensures InBounds(st.blocks[i].prev, |st.blocks|) && InBounds(st.blocks[i].next, |st.blocks|)
    {
      if InSomeList(h.lists, i) {
        var o: nat :| Listed(h.lists, i, o);
        var k := ListedNode(st, h, max, i, o);
        assert Stack(st, o, h.lists[o]);
        assert k + 1 < |h.lists[o]| ==> Node(st.blocks, o, h.lists[o], k + 1);
      }
    }
  }

  lemma StackFrame(st: State, after: State, o: nat, l: seq<nat>)
    requires o < |st.heads| == |after.heads| && |st.blocks| == |after.blocks| && Stack(st, o, l)
    requires after.heads[o] == st.heads[o]
    requires forall i :: 0 <= i < |st.blocks| && i in l ==> after.blocks[i] == st.blocks[i]
    ensures Stack(after, o, l)
  {
    forall k: nat | k < |l| ensures Node(after.blocks, o, l, k) {
      assert Node(st.blocks, o, l, k) && l[k] in l;
    }
  }

  lemma ListsAfterPush(lists: Lists, o: nat, id: nat, i: nat)
    requires o < |lists|
    ensures InSomeList(lists[o := [id] + lists[o]], i) <==> InSomeList(lists, i) || i == id
  {
    var more := lists[o := [id] + lists[o]];
    if InSomeList(lists, i) {
      var q: nat :| Listed(lists, i, q);
      assert Listed(more, i, q);
    }
    if InSomeList(more, i) && i != id {
      var q: nat :| Listed(more, i, q);
      assert Listed(lists, i, q);
    }
    assert Listed(more, id, o);
  }

  /** Pushing a block that is in no list, live or not. */
  lemma RepresentsAdd(st: State, h: Heap, max: nat, o: nat, id: nat)
    requires Represents(st, h, max) && Sane(st, max) && o <= max && id < |st.blocks| && !InSomeList(h.lists, id)
    ensures Represents(Add(st, max, o, id), Heap(h.lists[o := [id] + h.lists[o]], h.live - {id}), max)
  {
    var after, lists := Add(st, max, o, id), h.lists[o := [id] + h.lists[o]];
    forall q: nat | q <= max ensures Stack(after, q, lists[q]) {
      assert Stack(st, q, h.lists[q]);
      assert !Listed(h.lists, id, q);
      if q == o {
        var l, m := h.lists[o], lists[o];
        forall k: nat | k < |m| ensures Node(after.blocks, o, m, k) {
          if k > 0 {
            assert Node(st.blocks, o, l, k - 1) && m[k] == l[k - 1] && l[k - 1] != id;
          } else if l != [] {
            assert m[1] == l[0];
          }
        }
        forall i, j | 0 <= i < j < |m| ensures m[i] != m[j] {
          assert m[j] == l[j - 1];
        }
      } else {
        StackFrame(st, after, q, lists[q]);
      }
    }
    forall i: nat | i < |st.blocks| && i !in h.live - {id} && !InSomeList(lists, i)
      ensures after.blocks[i] == DEFAULT
    {
      ListsAfterPush(h.lists, o, id, i);
    }
  }

  /** Deleting the front of a list. */
  lemma RepresentsDelete(st: State, h: Heap, max: nat, o: nat)
    requires Represents(st, h, max) && Sane(st, max) && o <= max && h.lists[o] != []
    ensures h.lists[o][0] < |st.blocks|
    ensures Represents(Delete(st, max, o, h.lists[o][0]), h.(lists := h.lists[o := h.lists[o][1..]]), max)
    ensures !InSomeList(h.lists[o := h.lists[o][1..]], h.lists[o][0]) && h.lists[o][0] !in h.live
  {
    var id, l := h.lists[o][0], h.lists[o];
    assert Listed(h.lists, id, o);
    var _ := ListedNode(st, h, max, id, o);
    assert Stack(st, o, l) && Node(st.blocks, o, l, 0);
    assert |l| > 1 ==> Node(st.blocks, o, l, 1);
    var after, lists := Delete(st, max, o, id), h.lists[o := l[1..]];
    assert after.blocks == st.blocks[id := DEFAULT];
    forall q: nat | q <= max ensures Stack(after, q, lists[q]) {
      assert Stack(st, q, h.lists[q]);
      if q == o {
        forall k: nat | k < |l[1..]| ensures Node(after.blocks, o, l[1..], k) {
          assert Node(st.blocks, o, l, k + 1) && l[k + 1] != id;
        }
      } else {
        if Listed(h.lists, id, q) {
          ListedOnce(st, h, max, id, o, q);
          assert false;
        }
        StackFrame(st, after, q, lists[q]);
      }
    }
    forall i: nat ensures InSomeList(h.lists, i) <==> InSomeList(lists, i) || i == id {
      assert [id] + lists[o] == l && lists[o := l] == h.lists;
      ListsAfterPush(lists, o, id, i);
    }
    if InSomeList(lists, id) {
      var q: nat :| Listed(lists, id, q);
      assert Listed(h.lists, id, q);
      ListedOnce(st, h, max, id, o, q);
      assert false;
    }
  }
}
