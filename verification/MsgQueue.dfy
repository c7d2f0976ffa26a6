/** The message queue object of src/ipc.c: slots of one pool on two singly linked lists, relinked in place. */
module MsgQueue {
  import opened Basics
  import opened WaitList
  import opened MsgQueueModel

  /** A pointer to a slot, None for RT_NULL */
  type Pointer = Option<Node>

  /** Following `next` from `first` meets the nodes l and then RT_NULL. */
  ghost predicate Chain(next: seq<Pointer>, first: Pointer, l: seq<Node>) {
    && first == (if l == [] then None else Some(l[0]))
    && forall i :: 0 <= i < |l| ==> Follows(next, l, i)
  }

  ghost predicate Follows(next: seq<Pointer>, l: seq<Node>, i: nat)
    requires i < |l|
  {
    l[i] < |next| && next[l[i]] == if i + 1 < |l| then Some(l[i + 1]) else None
  }

  /** A chain depends only on the links of its own nodes. */
  lemma ChainFrame(next: seq<Pointer>, next': seq<Pointer>, first: Pointer, l: seq<Node>)
    requires Chain(next, first, l) && |next'| == |next|
    requires forall n :: n in l && n < |next| ==> next'[n] == next[n]
    ensures Chain(next', first, l)
  {
    forall i | 0 <= i < |l| ensures Follows(next', l, i) {
      assert Follows(next, l, i) && l[i] in l;
    }
  }

  lemma ChainTail(next: seq<Pointer>, first: Pointer, l: seq<Node>)
    requires Chain(next, first, l) && l != []
    ensures l[0] < |next| && Chain(next, next[l[0]], l[1..])
  {
    assert Follows(next, l, 0);
    forall i | 0 <= i < |l| - 1 ensures Follows(next, l[1..], i) {
      assert Follows(next, l, i + 1);
    }
  }

  lemma ChainFront(next: seq<Pointer>, first: Pointer, l: seq<Node>, n: Node)
    requires Chain(next, first, l) && n < |next| && n !in l
    ensures Chain(next[n := first], Some(n), [n] + l)
  {
    var next', l' := next[n := first], [n] + l;
    forall i | 0 <= i < |l'| ensures Follows(next', l', i) {
      if i > 0 {
        assert Follows(next, l, i - 1) && l[i - 1] in l;
      }
    }
  }

  lemma ChainBack(next: seq<Pointer>, first: Pointer, l: seq<Node>, n: Node)
    requires Chain(next, first, l) && Distinct(l) && n < |next| && n !in l && next[n] == None
    ensures l == [] ==> Chain(next, Some(n), [n])
    ensures l != [] ==> l[|l| - 1] < |next| && Chain(next[l[|l| - 1] := Some(n)], first, l + [n])
  {
    if l == [] {
      assert Follows(next, [n], 0);
    } else {
      var last, l' := l[|l| - 1], l + [n];
      assert Follows(next, l, |l| - 1);
      var next' := next[last := Some(n)];
      forall i | 0 <= i < |l'| ensures Follows(next', l', i) {
        if i < |l| {
          assert Follows(next, l, i) && l[i] in l;
        }
      }
    }
  }

  /** The chain from a pointer is unique: the pointers alone determine the list. */
  lemma {:induction false} ChainUnique(next: seq<Pointer>, first: Pointer, l: seq<Node>, l': seq<Node>)
    requires Chain(next, first, l) && Chain(next, first, l')
    ensures l == l'
    decreases |l|
  {
    if l != [] && l' != [] {
      ChainTail(next, first, l);
      ChainTail(next, first, l');
      ChainUnique(next, next[l[0]], l[1..], l'[1..]);
      assert l == [l[0]] + l[1..] && l' == [l'[0]] + l'[1..];
    }
  }

  /** A call that has filled a slot for the end of the queue has written its link, and may be interrupted then. */
  ghost predicate LinkReady(next: seq<Pointer>, f: Flight) {
    f.stage.Filled? && !f.stage.urgent ==> f.node < |next| && next[f.node] == None
  }

  ghost predicate LinksReady(next: seq<Pointer>, flights: map<Tid, Flight>) {
    forall t :: t in flights ==> LinkReady(next, flights[t])
  }

  /** The links of the other calls' slots stay, whatever list a call relinks. */
  lemma LinksStay(next: seq<Pointer>, next': seq<Pointer>, flights: map<Tid, Flight>, flights': map<Tid, Flight>)
    requires LinksReady(next, flights) && |next'| == |next|
    requires forall t :: t in flights' ==>
               LinkReady(next', flights'[t])
               || (t in flights && flights'[t] == flights[t] && (flights[t].node < |next| ==> next'[flights[t].node] == next[flights[t].node]))
    ensures LinksReady(next', flights')
  {
  }

  /** The last node of a list, or RT_NULL */
  function Last(l: seq<Node>): Pointer {
    if l == [] then None else Some(l[|l| - 1])
  }

  // ---------------------------------------------------------------- the pool

  const ALIGN := 4
  const HEADER := 4

  /** RT_ALIGN(size, RT_ALIGN_SIZE) */
  function Aligned(size: nat): nat {
    (size + ALIGN - 1) / ALIGN * ALIGN
  }

  function NodeAddress(msgSize: nat, n: Node): nat {
    n * (msgSize + HEADER)
  }

  /** The slots of rt_mq_init lie one after the other inside the pool, and each can hold the largest message. */
  lemma NodesApart(size: nat, poolSize: nat, a: Node, b: Node)
    requires var msgSize := Aligned(size); a < b < poolSize / (msgSize + HEADER)
    ensures var msgSize := Aligned(size);
            && size <= msgSize < size + ALIGN
            && NodeAddress(msgSize, a) + HEADER + msgSize <= NodeAddress(msgSize, b)
            && NodeAddress(msgSize, b) + HEADER + msgSize <= poolSize
  {
    var slot := Aligned(size) + HEADER;
    assert (a + 1) * slot <= b * slot by {
      MulMono(a + 1, b, slot);
    }
    assert (b + 1) * slot <= poolSize / slot * slot by {
      MulMono(b + 1, poolSize / slot, slot);
    }
    assert poolSize / slot * slot <= poolSize;
    assert (a + 1) * slot == a * slot + slot && (b + 1) * slot == b * slot + slot;
  }

  lemma MulMono(x: nat, y: nat, z: nat)
    requires x <= y
    ensures x * z <= y * z
  {
  }

  // ---------------------------------------------------------------- the object

  class MessageQueue {
    const flag: Flag
    const msgSize: nat
    /** The pool: the `next` member and the message bytes of every slot */
    const next: array<Pointer>
    const bytes: array<Bytes>
    var head: Pointer
    var tail: Pointer
    var free: Pointer
    var entry: nat
    var suspendThread: seq<Tid>
    var currentPriority: map<Tid, nat>
    /** The stack frames of the threads suspended in rt_mq_recv, and the error codes of those resumed */
    var waits: map<Tid, Wait>
    var error: map<Tid, Err>
    ghost var freeNodes: seq<Node>
    ghost var queued: seq<Node>
    ghost var links: seq<Link>
    ghost var clock: nat
    ghost var flights: map<Tid, Flight>

    ghost function Abs(): Queue
      reads this, bytes
    {
      Queue(flag, msgSize, bytes[..], freeNodes, queued, entry, links, clock, suspendThread, currentPriority, waits, error, flights)
    }

    /** Head and free pointer start the two lists; the tail is the last queued node, RT_NULL exactly when
        there is none. */
    ghost predicate Pointers()
      reads `head, `tail, `free, `queued, `freeNodes, next
    {
      Chain(next[..], head, queued) && Chain(next[..], free, freeNodes) && tail == Last(queued)
    }

    ghost predicate Valid()
      reads this, next, bytes
    {
      next.Length == bytes.Length && Inv(Abs()) && Pointers() && LinksReady(next[..], flights)
    }

    /** rt_mq_init: every slot goes to the front of the free list. */
    constructor (flag: Flag, size: nat, poolSize: nat, priorities: map<Tid, nat>)
      ensures Valid() && fresh(next) && fresh(bytes)
      ensures msgSize == Aligned(size) && bytes.Length == poolSize / (msgSize + HEADER)
      ensures Abs() == Fresh(flag, msgSize, bytes[..], priorities)
    {
      this.flag := flag;
      var aligned := Aligned(size);
      msgSize := aligned;
      var maxMsgs := poolSize / (aligned + HEADER);
      next := new Pointer[maxMsgs](_ => None);
      bytes := new Bytes[maxMsgs](_ => seq(aligned, _ => 0));
      head, tail, free, entry := None, None, None, 0;
      suspendThread, currentPriority, waits, error := [], priorities, map[], map[];
      freeNodes, queued, links, clock, flights := [], [], [], 0, map[];
      new;
      hide Inv, AllNodes;
      FreeAll();
      FreshInv(flag, msgSize, bytes[..], priorities);
    }

    /** The loop of rt_mq_init */
    method FreeAll()
      requires Pointers() && freeNodes == [] && queued == []
      modifies `free, `freeNodes, next
      ensures Pointers() && freeNodes == AllNodes(next.Length)
    {
      hide Pointers;
      for temp := 0 to next.Length
        invariant Pointers() && freeNodes == AllNodes(temp)
      {
        PushFree(temp);
      }
    }

    /** Putting a slot in front of the free list */
    method PushFree(msg: Node)
      requires Pointers() && msg < next.Length && msg !in freeNodes && msg !in queued
      modifies `free, `freeNodes, next
      ensures Pointers() && freeNodes == [msg] + old(freeNodes) && next[..] == old(next[..])[msg := old(free)]
    {
      ChainFront(next[..], free, freeNodes, msg);
      ChainFrame(next[..], next[..][msg := free], head, queued);
      next[msg] := free;
      free := Some(msg);
      freeNodes := [msg] + freeNodes;
    }

    /** rt_mq_send and rt_mq_urgent: taking a slot */
    method Grab(thread: Tid, buffer: Bytes, ghost urgent: bool) returns (r: Outcome, msg: Pointer)
      requires Valid() && Idle(Abs(), thread) && buffer != []
      modifies this
      ensures Valid() && (Abs(), r) == MsgQueueModel.Grab(old(Abs()), thread, buffer, urgent)
      ensures if r.Holds? then thread in flights && msg == Some(flights[thread].node) else msg == None
    {
      hide Inv;
      GrabKeeps(Abs(), thread, buffer, urgent);
      if |buffer| > msgSize {
        return Done(ERROR), None;
      }
      msg := free;
      if msg == None {
        return Done(EFULL), None;
      }
      ChainTail(next[..], free, freeNodes);
      free := next[msg.value];
      freeNodes := freeNodes[1..];
      flights := flights[thread := Flight(msg.value, Grabbed(buffer, urgent))];
      r := Holds;
    }

    /** A node that a call holds is on neither list, and with no other call. */
    static lemma Apart(q: Queue, t: Tid)
      requires Inv(q) && t in q.flights
      ensures q.flights[t].node < |q.payload| && q.flights[t].node !in q.queue && q.flights[t].node !in q.free
      ensures forall u :: u in q.flights && u != t ==> q.flights[u].node != q.flights[t].node
    {
      assert HeldBy(q.flights, t, q.flights[t].node);
    }

    static lemma CallsApart(q: Queue)
      requires Inv(q)
      ensures forall u :: u in q.flights ==> q.flights[u].node !in q.queue && q.flights[u].node !in q.free
    {
      forall u | u in q.flights ensures q.flights[u].node !in q.queue && q.flights[u].node !in q.free {
        Apart(q, u);
      }
    }

    /** The copying in rt_mq_send and rt_mq_urgent, with interrupts enabled; only send writes the link. */
    method Fill(thread: Tid, msg: Node, buffer: Bytes, urgent: bool)
      requires Valid() && thread in flights && flights[thread] == Flight(msg, Grabbed(buffer, urgent))
      modifies `flights, next, bytes
      ensures Valid() && Stands(old(Abs()), thread) && |buffer| <= |old(bytes[..])[msg]|
      ensures Abs() == MsgQueueModel.Fill(old(Abs()), thread)
    {
      hide Inv;
      ghost var q := Abs();
      FillKeeps(q, thread);
      Apart(q, thread);
      if !urgent {
        ChainFrame(next[..], next[..][msg := None], head, queued);
        ChainFrame(next[..], next[..][msg := None], free, freeNodes);
        next[msg] := None;
      }
      bytes[msg] := buffer + bytes[msg][|buffer|..];
      flights := flights[thread := Flight(msg, Filled(buffer, urgent))];
      LinksStay(old(next[..]), next[..], q.flights, flights);
    }

    /** Resuming the first waiting receiver */
    method ResumeOne()
      modifies `suspendThread, `error
      ensures Abs() == Wake(old(Abs()))
    {
      if suspendThread != [] {
        error := error[suspendThread[0] := EOK];
        suspendThread := suspendThread[1..];
      }
    }

    /** The relinking of rt_mq_send: the message goes behind the last one. */
    method Append(msg: Node)
      requires Pointers() && Distinct(queued) && msg < next.Length && msg !in freeNodes && msg !in queued
      requires next[msg] == None && forall n :: n in queued ==> n !in freeNodes
      modifies `head, `tail, `queued, next
      ensures Pointers() && queued == old(queued) + [msg]
      ensures forall n :: 0 <= n < next.Length && n !in old(queued) ==> next[n] == old(next[n])
    {
      ChainBack(next[..], head, queued, msg);
      if tail != None {
        ChainFrame(next[..], next[..][tail.value := Some(msg)], free, freeNodes);
        next[tail.value] := Some(msg);
      }
      tail := Some(msg);
      if head == None {
        head := Some(msg);
      }
      queued := queued + [msg];
    }

    /** The relinking of rt_mq_urgent: the message goes in front of the first one. */
    method Prepend(msg: Node)
      requires Pointers() && msg < next.Length && msg !in freeNodes && msg !in queued
      modifies `head, `tail, `queued, next
      ensures Pointers() && queued == [msg] + old(queued)
      ensures forall n :: 0 <= n < next.Length && n != msg ==> next[n] == old(next[n])
    {
      ChainFront(next[..], head, queued, msg);
      ChainFrame(next[..], next[..][msg := head], free, freeNodes);
      next[msg] := head;
      head := Some(msg);
      if tail == None {
        tail := Some(msg);
      }
      queued := [msg] + queued;
    }

    /** The end of rt_mq_send and rt_mq_urgent: linking the message, and resuming a receiver for it */
    method LinkMessage(thread: Tid, msg: Node, urgent: bool)
      requires Valid() && thread in flights && flights[thread].node == msg
      requires flights[thread].stage.Filled? && flights[thread].stage.urgent == urgent
      modifies this, next
      ensures Valid() && Abs() == Wake(Enqueue(old(Abs()), thread))
    {
      hide Inv;
      EnqueueKeeps(Abs(), thread);
      Apart(Abs(), thread);
      CallsApart(Abs());
      ListsApart(Abs());
      assert LinkReady(next[..], flights[thread]);
      hide Chain, Distinct, Enqueue;
      Enlist(thread, msg, urgent);
      LinksStay(old(next[..]), next[..], old(flights), flights);
      ResumeOne();
    }

    /** The message joins the queue. */
    method Enlist(thread: Tid, msg: Node, urgent: bool)
      requires Pointers() && Distinct(queued) && msg < next.Length && msg !in freeNodes && msg !in queued
      requires (!urgent ==> next[msg] == None) && forall n :: n in queued ==> n !in freeNodes
      requires thread in flights && flights[thread].node == msg
      requires flights[thread].stage.Filled? && flights[thread].stage.urgent == urgent
      modifies `head, `tail, `queued, `entry, `links, `clock, `flights, next
      ensures Pointers() && Abs() == Enqueue(old(Abs()), thread) && flights == old(flights) - {thread}
      ensures forall n :: 0 <= n < next.Length && n != msg && n !in old(queued) ==> next[n] == old(next[n])
    {
      hide Pointers, Distinct;
      if urgent {
        Prepend(msg);
      } else {
        Append(msg);
      }
      entry := entry + 1;
      ghost var link := Link(clock, urgent, flights[thread].stage.message);
      links := if urgent then [link] + links else links + [link];
      clock := clock + 1;
      flights := flights - {thread};
    }

    static lemma ListsApart(q: Queue)
      requires Inv(q)
      ensures Distinct(q.queue) && forall n :: n in q.queue ==> n !in q.free
    {
    }

    /** rt_mq_recv up to the schedule or the copying; the loop's test comes after the one for a call that
        does not wait. */
    method Receive(thread: Tid, size: nat, timeout: int) returns (r: Outcome, msg: Pointer)
      requires Valid() && Idle(Abs(), thread) && size != 0
      modifies this
      ensures Valid() && (old(entry) != 0 ==> old(queued) != [] && old(links) != [])
      ensures forall w :: w in old(suspendThread) ==> w in old(currentPriority)
      ensures (Abs(), r) == Recv(old(Abs()), thread, size, timeout)
      ensures if r.Holds? then thread in flights && msg == Some(flights[thread].node) else msg == None
    {
      hide Inv, Recv;
      InvReady(Abs());
      RecvKeeps(Abs(), thread, size, timeout);
      EntryIsLength(Abs());
      r, msg := ReceiveLoop(thread, size, timeout);
    }

    static lemma EntryIsLength(q: Queue)
      requires Inv(q)
      ensures q.entry == |q.queue| == |q.links| && Distinct(q.queue)
    {
    }

    /** The loop of rt_mq_recv, from its test on */
    method ReceiveLoop(thread: Tid, size: nat, timeout: int) returns (r: Outcome, msg: Pointer)
      requires Pointers() && thread in currentPriority && (forall w :: w in suspendThread ==> w in currentPriority)
      requires entry == |queued| == |links| && Distinct(queued) && LinksReady(next[..], flights)
      modifies this
      ensures Pointers() && LinksReady(next[..], flights) && (Abs(), r) == Recv(old(Abs()), thread, size, timeout)
      ensures if r.Holds? then thread in flights && msg == Some(flights[thread].node) else msg == None
    {
      hide Queued, Chain;
      if entry == 0 {
        if timeout == 0 {
          return Done(ETIMEOUT), None;
        }
        suspendThread := ListSuspend(flag, suspendThread, currentPriority, thread);
        waits := waits[thread := Wait(size, timeout)];
        return Waits, None;
      }
      var node := Unlink();
      flights := flights[thread := Flight(node, Taken(size, links[0]))];
      links := links[1..];
      entry := entry - 1;
      r, msg := Holds, Some(node);
    }

    /** Moving the queue head to the next node, and the tail to RT_NULL behind the last one */
    method Unlink() returns (msg: Node)
      requires Pointers() && queued != [] && Distinct(queued)
      modifies `head, `tail, `queued
      ensures Pointers() && msg == old(queued)[0] && queued == old(queued)[1..]
    {
      ChainTail(next[..], head, queued);
      msg := head.value;
      head := next[msg];
      if tail == Some(msg) {
        tail := None;
      }
      queued := queued[1..];
    }

    /** A resumed receiver goes on behind rt_schedule, `elapsed` ticks after it was suspended. */
    method Continue(thread: Tid, elapsed: nat) returns (r: Outcome, msg: Pointer)
      requires Valid() && thread in error
      modifies this
      ensures Valid() && thread in old(waits) && thread in old(currentPriority)
      ensures (old(entry) != 0 ==> old(queued) != [] && old(links) != [])
      ensures forall w :: w in old(suspendThread) ==> w in old(currentPriority)
      ensures (Abs(), r) == Resume(old(Abs()), thread, elapsed)
      ensures if r.Holds? then thread in flights && msg == Some(flights[thread].node) else msg == None
    {
      hide Inv, Recv;
      ghost var q := Abs();
      ResumeKeeps(q, thread, elapsed);
      EntryIsLength(q);
      var wait := waits[thread];
      var code := error[thread];
      waits := waits - {thread};
      error := error - {thread};
      assert Abs() == Off(q, thread);
      if code != EOK {
        return Done(code), None;
      }
      var timeout := wait.timeout;
      if timeout > 0 {
        timeout := timeout - elapsed;
        if timeout < 0 {
          timeout := 0;
        }
      }
      r, msg := ReceiveLoop(thread, wait.size, timeout);
    }

    /** The copying in rt_mq_recv, with interrupts enabled */
    method CopyMessage(thread: Tid, msg: Node, size: nat) returns (output: Bytes)
      requires Valid() && thread in flights && flights[thread].node == msg
      requires flights[thread].stage.Taken? && flights[thread].stage.size == size
      modifies `flights
      ensures Valid() && Stands(old(Abs()), thread) && |old(bytes[..])[msg]| == msgSize
      ensures Abs() == CopyOut(old(Abs()), thread)
      ensures flights[thread].stage.output == output
    {
      hide Inv;
      CopyOutKeeps(Abs(), thread);
      output := bytes[msg][..if size > msgSize then msgSize else size];
      flights := flights[thread := Flight(msg, Copied(output, flights[thread].stage.link))];
    }

    /** The end of rt_mq_recv: the slot goes back to the free list.  The bytes received agree with the message
        sent as far as both go. */
    method Release(thread: Tid, msg: Node, output: Bytes)
      requires Valid() && thread in flights && flights[thread].node == msg
      requires flights[thread].stage.Copied? && flights[thread].stage.output == output
      modifies this, next
      ensures Valid() && (Abs(), Delivered(output)) == PutBack(old(Abs()), thread)
      ensures Agree(output, old(flights)[thread].stage.taken.message)
    {
      hide Inv;
      PutBackKeeps(Abs(), thread);
      Apart(Abs(), thread);
      hide Chain;
      PushFree(msg);
      flights := flights - {thread};
      LinksStay(old(next[..]), next[..], old(flights), flights);
    }

    /** rt_thread_timeout of a waiting receiver */
    method ThreadTimeout(thread: Tid)
      requires Valid() && thread in suspendThread
      modifies this
      ensures Valid() && Abs() == TimeOut(old(Abs()), thread)
    {
      hide Inv, Chain;
      TimeOutKeeps(Abs(), thread);
      error := error[thread := ETIMEOUT];
      suspendThread := Erase(suspendThread, thread);
    }

    /** rt_mq_control with RT_IPC_CMD_RESET: the queue empties into the free list, from its head on. */
    method ControlReset()
      requires Valid()
      modifies this, next
      ensures Valid() && Abs() == Reset(old(Abs()))
    {
      hide Inv, Pointers;
      ghost var q := Abs();
      ResetKeeps(q);
      ListsApart(q);
      CallsApart(q);
      NodesInPool(q);
      error := ListResumeAll(suspendThread, error);
      suspendThread := [];
      Drain();
      LinksStay(old(next[..]), next[..], old(flights), flights);
      entry := 0;
      links := [];
    }

    /** Moving the queued slots to the free list one by one */
    method Drain()
      requires Pointers() && Distinct(queued) && forall n :: n in queued ==> n < next.Length && n !in freeNodes
      modifies `head, `tail, `free, `queued, `freeNodes, next
      ensures Pointers() && queued == [] && freeNodes == Reversed(old(queued)) + old(freeNodes)
      ensures forall n :: 0 <= n < next.Length && n !in old(queued) ==> next[n] == old(next[n])
    {
      hide Chain;
      HeadOf(next[..], head, queued);
      while head != None
        invariant Pointers() && Distinct(queued) && (head == None <==> queued == [])
        invariant forall n :: n in queued ==> n < next.Length && n !in freeNodes
        invariant Reversed(queued) + freeNodes == Reversed(old(queued)) + old(freeNodes)
        invariant forall n :: n in queued ==> n in old(queued)
        invariant forall n :: 0 <= n < next.Length && n !in old(queued) ==> next[n] == old(next[n])
        decreases |queued|
      {
        Behead(queued);
        assert queued[0] in queued;
        assert Reversed(queued) + freeNodes == Reversed(queued[1..]) + ([queued[0]] + freeNodes);
        hide Distinct, Reversed;
        var msg := Unlink();
        PushFree(msg);
        HeadOf(next[..], head, queued);
      }
    }

    static lemma HeadOf(next: seq<Pointer>, head: Pointer, l: seq<Node>)
      requires Chain(next, head, l)
      ensures head == None <==> l == []
    {
    }

    static lemma NodesInPool(q: Queue)
      requires Inv(q)
      ensures forall n :: n in q.queue ==> n < |q.payload|
    {
    }
  }
}
