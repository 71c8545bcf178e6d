/** ata.c in its own form: ATARead split where sleep switches away, and ATAHandler, over the
    request queue object, the controller and the process states. Each performs one step of
    the protocol. */
module AtaDriver {
  import opened ProcessStates
  import opened AtaQueue
  import opened AtaProtocol
  import opened Util

  class Driver {
    const queue: RequestQueue
    /** Memory the buffers point into, and the 16-bit words of the disk. */
    const mem: array<Byte>
    const disk: seq<Short>
    var commands: seq<Command>
    var state: map<nat, ProcessState>
    var currentProcess: nat
    ghost var inRead: map<nat, Request>
    ghost var pushed: seq<Request>
    ghost var woken: seq<nat>
    ghost var delivered: seq<Delivery>

    ghost predicate Valid()
      reads this, queue, queue.queueBody
    {
      queue.Valid() && Inv(View())
    }

    ghost function View(): System
      reads this, queue, queue.queueBody
    {
      System(queue.View(), commands, state, currentProcess, inRead, pushed, woken, delivered)
    }

    /** ATAInit. */
    constructor (idle: Request, process: nat, memory: array<Byte>, words: seq<Short>)
      ensures Valid() && Initial(View()) && currentProcess == process && mem == memory && disk == words
      ensures fresh(queue) && fresh(queue.queueBody)
    {
      mem, disk := memory, words;
      queue := new RequestQueue(idle);
      commands, state, currentProcess := [], map[process := RUNNING], process;
      inRead, pushed, woken, delivered := map[], [], [], [];
      new;
      assert Initial(View());
      ProtocolSafe(View(), []);
    }

    method SendRequest(index: int)
      requires queue.Valid() && 0 <= index < CAPACITY
      modifies `commands
      ensures View() == Send(old(View()), queue.View().body[index])
    {
      commands := commands + [Command(queue.queueBody[index], false)];
    }

    /** ATARead as far as sleep; `next` is the process Schedule picks. */
    method BeginATARead(lba: nat, sizeOfBytes: int, buffer: nat, next: nat) returns (index: int)
      requires Valid() && Enabled(View(), Read(lba, sizeOfBytes, buffer, next))
      modifies this, queue, queue.queueBody
      ensures Valid() && View() == Apply(old(View()), Read(lba, sizeOfBytes, buffer, next))
      ensures index == -1 <==> |old(Contents(queue.View()))| == 10
      ensures index == -1 ==> View() == old(View())
      ensures index != -1 ==>
                var r := Request(false, lba, sizeOfBytes, false, buffer, old(currentProcess));
                && Contents(queue.View()) == old(Contents(queue.View())) + [r]
                && inRead == old(inRead)[old(currentProcess) := r]
                && commands == (if old(Contents(queue.View())) == [] then [Command(r, false)] else old(commands))
                && state == old(state)[old(currentProcess) := SLEEP] && currentProcess == next
    {
      ghost var r := Request(false, lba, sizeOfBytes, false, buffer, currentProcess);
      ReadChanges(View(), lba, sizeOfBytes, buffer, next, r);
      assert commands + [] == commands;
      StepKeeps(View(), Read(lba, sizeOfBytes, buffer, next));
      index := PushAndSleep(lba, sizeOfBytes, buffer, next);
    }

    method PushAndSleep(lba: nat, sizeOfBytes: int, buffer: nat, next: nat) returns (index: int)
      requires queue.Valid()
      modifies this, queue, queue.queueBody
      ensures queue.Valid() && View() == BeginRead(old(View()), lba, sizeOfBytes, buffer, next)
      ensures index == -1 <==> old(queue.size) == CAPACITY
    {
      ghost var request := Request(false, lba, sizeOfBytes, false, buffer, currentProcess);
      PushAppends(queue.View(), request);
      index := queue.Push(false, lba, sizeOfBytes, buffer, currentProcess);
      if index == -1 {
        return -1;
      }
      inRead, pushed := inRead[currentProcess := request], pushed + [request];
      if queue.size == 1 {
        SendRequest(index);
      }
      state := state[currentProcess := SLEEP];
      currentProcess := next;
    }

    method ATAHandler()
      requires Valid() && Enabled(View(), Interrupt)
      modifies this
      ensures Valid() && View() == Apply(old(View()), Interrupt)
      ensures var q := Contents(queue.View());
              && q != [] && commands == [Command(q[0], true)]
              && state == old(state)[q[0].process := RUNNING] && currentProcess == old(currentProcess)
    {
      InterruptKeeps(View());
      commands := commands[0 := commands[0].(done := true)];
      var request := queue.Front();
      state := state[request.process := RUNNING];
      woken := woken + [request.process];
    }

    /** The process's buffer lies in memory, and the sectors it asked for exist. */
    predicate Fits(r: Request) {
      && r.buffer + r.sizeOfBytes <= mem.Length
      && (r.sizeOfBytes > 0 ==> 256 * r.lba + (r.sizeOfBytes + 1) / 2 <= |disk|)
    }

    /** n is m but for the request's buffer, which holds the words of its sectors, 256 a sector,
        low byte first, as far as its size goes. */
    ghost predicate HoldsSectors(n: seq<Byte>, m: seq<Byte>, r: Request)
      requires Fits(r)
    {
      && |n| == |m| == mem.Length
      && (forall i: nat :: 2 * i + 1 < r.sizeOfBytes ==>
            n[r.buffer + 2 * i] as int + 0x100 * n[r.buffer + 2 * i + 1] as int == disk[256 * r.lba + i])
      && (r.sizeOfBytes > 0 && r.sizeOfBytes % 2 == 1 ==>
            n[r.buffer + r.sizeOfBytes - 1] == disk[256 * r.lba + r.sizeOfBytes / 2] % 0x100)
      && (forall a :: 0 <= a < |n| && !(r.buffer <= a < r.buffer + r.sizeOfBytes) ==> n[a] == m[a])
    }

    /** ATARead from where sleep returns: the sectors the process asked for are in its buffer. */
    method FinishATARead() returns (size: int)
      requires Valid() && Enabled(View(), Resume) && Fits(inRead[currentProcess])
      modifies this, queue, queue.queueBody, mem
      ensures Valid() && View() == Apply(old(View()), Resume)
      ensures Contents(queue.View()) == old(Contents(queue.View()))[1..] && inRead == old(inRead - {currentProcess})
      ensures queue.queueBody[old(queue.headIndex)] == old(queue.queueBody[queue.headIndex]).(isComplete := true)
      ensures var rest := Contents(queue.View()); commands == if rest == [] then [] else [Command(rest[0], false)]
      ensures state == old(state) && currentProcess == old(currentProcess)
      ensures var r := old(inRead)[old(currentProcess)];
              size == r.sizeOfBytes && Fits(r) && HoldsSectors(mem[..], old(mem[..]), r)
    {
      StepKeeps(View(), Resume);
      FrontIsOwn();
      size := ReceiveAndComplete(inRead[currentProcess]);
    }

    /** The same of a front request r known to be the process's own, and finished. */
    method ReceiveAndComplete(ghost r: Request) returns (size: int)
      requires queue.Valid() && commands == [Command(r, true)] && queue.size > 0 && RingFront(queue.View()) == r
      requires Contents(queue.View())[0] == r && r.process == currentProcess && !r.isWrite && Fits(r)
      modifies this, queue, queue.queueBody, mem
      ensures queue.Valid() && View() == FinishRead(old(View()))
      ensures Contents(queue.View()) == old(Contents(queue.View()))[1..] && inRead == old(inRead - {currentProcess})
      ensures queue.queueBody[old(queue.headIndex)] == old(queue.queueBody[queue.headIndex]).(isComplete := true)
      ensures var rest := Contents(queue.View()); commands == if rest == [] then [] else [Command(rest[0], false)]
      ensures state == old(state) && currentProcess == old(currentProcess)
      ensures size == r.sizeOfBytes && HoldsSectors(mem[..], old(mem[..]), r)
    {
      FinishChanges(View());
      size := Receive();
      Complete();
    }

    /** The command that finished and the front request are the resuming process's own. */
    lemma FrontIsOwn()
      requires Valid() && Enabled(View(), Resume)
      ensures commands == [Command(inRead[currentProcess], true)] && queue.size > 0
      ensures RingFront(queue.View()) == inRead[currentProcess] && inRead[currentProcess].process == currentProcess
      ensures RingFront(queue.View()) == Contents(queue.View())[0] && !inRead[currentProcess].isWrite
    {
      ResumerOwnsFront(View());
    }

    /** The read loop, on the front request and whatever command the controller finished, whose
        sectors hold 256 words each. */
    method Receive() returns (size: int)
      requires queue.Valid() && commands != [] && !RingFront(queue.View()).isWrite
      requires RingFront(queue.View()) == commands[0].request && Fits(commands[0].request)
      modifies mem
      ensures var r := commands[0].request;
              size == r.sizeOfBytes && Fits(r) && HoldsSectors(mem[..], old(mem[..]), r)
    {
      var request := queue.Front();
      if !request.isWrite {
        ReadData(disk, 256 * commands[0].request.lba, mem, request.buffer, request.sizeOfBytes);
      }
      size := request.sizeOfBytes;
    }

    /** Mark the front request complete, pop it and send the next one. */
    method Complete()
      requires queue.Valid() && commands != []
      modifies this, queue, queue.queueBody
      ensures queue.Valid() && View() == FinishRead(old(View()))
      ensures queue.queueBody[old(queue.headIndex)] == old(queue.queueBody[queue.headIndex]).(isComplete := true)
    {
      ghost var front := RingFront(queue.View());
      ghost var data := if commands[0].done
                        then Sectors(commands[0].request.lba, commands[0].request.sizeOfBytes) else Garbage;
      commands := commands[1..];
      queue.CompleteFront();
      queue.Pop();
      delivered := delivered + [Delivery(front.buffer, front.process, currentProcess, data)];
      inRead := inRead - {currentProcess};
      if queue.size >= 1 {
        SendRequest(queue.headIndex);
      }
    }
  }
}
