/** The ATA request ring of ata.c and the loop that moves a sector's words into a buffer. */
module AtaQueue {
  import opened Util

  const CAPACITY: nat := 10

  /** Buffers and processes are known by number. */
  datatype Request = Request(isWrite: bool, lba: nat, sizeOfBytes: int, isComplete: bool, buffer: nat, process: nat)

  /** struct ATARequestQueue. */
  datatype Ring = Ring(head: nat, size: nat, body: seq<Request>)

  predicate RingOk(r: Ring) {
    |r.body| == CAPACITY && r.head < CAPACITY && r.size <= CAPACITY
  }

  function Slot(r: Ring, i: nat): (k: int)
    ensures 0 <= k < CAPACITY
  {
    (r.head + i) % CAPACITY
  }

  /** The pending requests, oldest first. */
  function Contents(r: Ring): (q: seq<Request>)
    requires RingOk(r)
    ensures |q| == r.size && forall i :: 0 <= i < r.size ==> q[i] == r.body[Slot(r, i)]
  {
    seq(r.size, i requires 0 <= i < r.size => r.body[Slot(r, i)])
  }

  function RingPush(r: Ring, request: Request): (Ring, int)
    requires RingOk(r)
  {
    if r.size == CAPACITY then (r, -1)
    else (Ring(r.head, r.size + 1, r.body[Slot(r, r.size) := request]), Slot(r, r.size))
  }

  function RingPop(r: Ring): Ring
    requires RingOk(r)
  {
    if r.size == 0 then r else Ring((r.head + 1) % CAPACITY, r.size - 1, r.body)
  }

  function RingFront(r: Ring): Request
    requires RingOk(r)
  {
    r.body[r.head]
  }

  function SetFront(r: Ring, request: Request): Ring
    requires RingOk(r)
  {
    r.(body := r.body[r.head := request])
  }

  /** A push appends, or is refused exactly when ten requests are pending; the index it
      returns is the new request's slot. */
  lemma PushAppends(r: Ring, request: Request)
    requires RingOk(r)
    ensures var (t, index) := RingPush(r, request);
            && RingOk(t)
            && (index == -1 <==> |Contents(r)| == 10)
            && Contents(t) == (if index == -1 then Contents(r) else Contents(r) + [request])
            && (index != -1 ==> 0 <= index < CAPACITY && t.body[index] == request)
  {
  }

  lemma PopDrops(r: Ring)
    requires RingOk(r)
    ensures RingOk(RingPop(r))
    ensures Contents(RingPop(r)) == if r.size == 0 then [] else Contents(r)[1..]
    ensures r.size > 0 ==> RingFront(r) == Contents(r)[0]
  {
    if r.size > 0 {
      forall i | 0 <= i < r.size - 1 ensures Slot(RingPop(r), i) == Slot(r, i + 1) {
      }
      assert Contents(RingPop(r)) == Contents(r)[1..];
    }
  }

  lemma SetFrontKeepsRest(r: Ring, request: Request)
    requires RingOk(r) && r.size > 0
    ensures RingOk(SetFront(r, request)) && Contents(SetFront(r, request))[1..] == Contents(r)[1..]
  {
  }

  // ---------------------------------------------------------------- every interleaving

  datatype RingOp = DoPush(request: Request) | DoPop

  function RunRing(r: Ring, ops: seq<RingOp>): Ring
    requires RingOk(r)
    decreases |ops|
  {
    if ops == [] then r
    else
      match ops[0]
      case DoPush(x) =>
        PushAppends(r, x);
        RunRing(RingPush(r, x).0, ops[1..])
      case DoPop =>
        PopDrops(r);
        RunRing(RingPop(r), ops[1..])
  }

  /** The same run on a queue that holds at most CAPACITY requests. */
  function RunFifo(q: seq<Request>, ops: seq<RingOp>): seq<Request>
    decreases |ops|
  {
    if ops == [] then q
    else
      match ops[0]
      case DoPush(x) => RunFifo(if |q| == CAPACITY then q else q + [x], ops[1..])
      case DoPop => RunFifo(if q == [] then q else q[1..], ops[1..])
  }

  /** Whatever the interleaving and however often it wraps, the ring is a bounded FIFO. */
  lemma {:induction false} RingIsFifo(r: Ring, ops: seq<RingOp>)
    requires RingOk(r)
    ensures RingOk(RunRing(r, ops)) && Contents(RunRing(r, ops)) == RunFifo(Contents(r), ops)
    decreases |ops|
  {
    if ops != [] {
      match ops[0]
      case DoPush(x) =>
        PushAppends(r, x);
        RingIsFifo(RingPush(r, x).0, ops[1..]);
      case DoPop =>
        PopDrops(r);
        RingIsFifo(RingPop(r), ops[1..]);
    }
  }

  // ---------------------------------------------------------------- in place

  class RequestQueue {
    var headIndex: nat
    var size: nat
    const queueBody: array<Request>

    function View(): Ring
      reads this, queueBody
    {
      Ring(headIndex, size, queueBody[..])
    }

    ghost predicate Valid()
      reads this, queueBody
    {
      RingOk(View())
    }

    /** The queue as ATAInit leaves it. */
    constructor (idle: Request)
      ensures Valid() && fresh(queueBody) && headIndex == 0 && size == 0
    {
      queueBody := new Request[CAPACITY](_ => idle);
      headIndex, size := 0, 0;
    }

    method Push(isWrite: bool, lba: nat, sizeOfBytes: int, buffer: nat, currentProcess: nat) returns (index: int)
      requires Valid()
      modifies this, queueBody
      ensures Valid()
      ensures View() == RingPush(old(View()), Request(isWrite, lba, sizeOfBytes, false, buffer, currentProcess)).0
      ensures index == RingPush(old(View()), Request(isWrite, lba, sizeOfBytes, false, buffer, currentProcess)).1
    {
      if size == CAPACITY {
        return -1;
      }
      var pushedIndex := (headIndex + size) % CAPACITY;
      size := size + 1;
      queueBody[pushedIndex] := Request(isWrite, lba, sizeOfBytes, false, buffer, currentProcess);
      return pushedIndex;
    }

    method Front() returns (request: Request)
      requires Valid()
      ensures request == RingFront(View())
      ensures size > 0 ==> request == Contents(View())[0]
    {
      PopDrops(View());
      request := queueBody[headIndex];
    }

    method CompleteFront()
      requires Valid()
      modifies queueBody
      ensures Valid() && View() == SetFront(old(View()), RingFront(old(View())).(isComplete := true))
    {
      queueBody[headIndex] := queueBody[headIndex].(isComplete := true);
    }

    method Pop()
      requires Valid()
      modifies this
      ensures Valid() && View() == RingPop(old(View()))
    {
      if size == 0 {
        return;
      }
      headIndex := (headIndex + 1) % CAPACITY;
      size := size - 1;
    }
  }

  // ---------------------------------------------------------------- moving the data

  /** unsigned short: what one read of the data port yields. */
  type Short = w: nat | w < 0x1_0000

  /** The read loop: exactly sizeOfBytes bytes from `buffer` on change. Each pair of them holds
      a word, low byte first; an odd last byte is the low byte of its word. Nothing moves when
      the size is not positive. `first` is the place on the disk of the first word. */
  method ReadData(disk: seq<Short>, first: nat, mem: array<Byte>, buffer: nat, sizeOfBytes: int)
    requires buffer + sizeOfBytes <= mem.Length && (sizeOfBytes > 0 ==> first + (sizeOfBytes + 1) / 2 <= |disk|)
    modifies mem
    ensures forall i: nat :: 2 * i + 1 < sizeOfBytes ==>
              mem[buffer + 2 * i] as int + 0x100 * mem[buffer + 2 * i + 1] as int == disk[first + i]
    ensures sizeOfBytes > 0 && sizeOfBytes % 2 == 1 ==>
              mem[buffer + sizeOfBytes - 1] == disk[first + sizeOfBytes / 2] % 0x100
    ensures forall a :: 0 <= a < mem.Length && !(buffer <= a < buffer + sizeOfBytes) ==> mem[a] == old(mem[a])
  {
    var i := 0;
    while i < (sizeOfBytes + 1) / 2
      invariant 0 <= i && (i > 0 ==> i <= (sizeOfBytes + 1) / 2)
      invariant forall j: nat :: j < i && 2 * j + 1 < sizeOfBytes ==>
                  mem[buffer + 2 * j] as int + 0x100 * mem[buffer + 2 * j + 1] as int == disk[first + j]
      invariant sizeOfBytes % 2 == 1 && 0 < sizeOfBytes < 2 * i ==>
                  mem[buffer + sizeOfBytes - 1] == disk[first + sizeOfBytes / 2] % 0x100
      invariant forall a :: 0 <= a < mem.Length && (a < buffer || a >= buffer + 2 * i || a >= buffer + sizeOfBytes) ==>
                  mem[a] == old(mem[a])
    {
      var data := disk[first + i];
      mem[buffer + 2 * i] := data % 0x100;
      if i != (sizeOfBytes + 1) / 2 - 1 || sizeOfBytes % 2 == 0 {
        mem[buffer + 2 * i + 1] := data / 0x100 % 0x100;
      }
      i := i + 1;
    }
  }
}
