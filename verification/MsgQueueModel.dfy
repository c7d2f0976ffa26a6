/** A message queue of src/ipc.c: every stretch of send, urgent and receive that runs with interrupts disabled,
    and the copying between them, as one step each; and what holds after any interleaving of these steps. */
module MsgQueueModel {
  import opened Basics
  import opened WaitList

  /** A message slot of the pool, by its index */
  type Node = nat
  type Byte = b: int | 0 <= b < 256
  type Bytes = seq<Byte>

  /** What linking adds to a queued message, for the statements only: when it was linked, by which call, and
      the bytes the caller gave. */
  datatype Link = Link(stamp: nat, urgent: bool, message: Bytes)

  /** How far a call that has taken a node out of the lists has come. */
  datatype Stage =
    | Grabbed(buffer: Bytes, urgent: bool)
    | Filled(message: Bytes, urgent: bool)
    | Taken(size: nat, link: Link)
    | Copied(output: Bytes, taken: Link)

  datatype Flight = Flight(node: Node, stage: Stage)

  /** A thread suspended in rt_mq_recv */
  datatype Wait = Wait(size: nat, timeout: int)

  /** The queue object and the calls under way on it.  `free` and `queue` are the nodes on the two lists,
      `links` says of each queued node how it got there; `waits` are the threads suspended in rt_mq_recv that
      have not run since, `pending` those of them that have been resumed, `flights` the calls that hold a
      node. */
  datatype Queue = Queue(
    flag: Flag, msgSize: nat, payload: seq<Bytes>, free: seq<Node>, queue: seq<Node>, entry: nat,
    links: seq<Link>, clock: nat,
    receivers: seq<Tid>, priority: map<Tid, nat>, waits: map<Tid, Wait>, pending: map<Tid, Err>,
    flights: map<Tid, Flight>)

  datatype Outcome = Waits | Holds | Done(err: Err) | Delivered(output: Bytes)

  // ---------------------------------------------------------------- steps

  predicate Idle(q: Queue, t: Tid) {
    t in q.priority && t !in q.waits && t !in q.flights
  }

  predicate Stands(q: Queue, t: Tid) {
    t in q.flights && q.flights[t].node < |q.payload|
  }

  /** rt_mq_send and rt_mq_urgent up to the first enabling of interrupts */
  function Grab(q: Queue, t: Tid, buffer: Bytes, urgent: bool): (Queue, Outcome) {
    if |buffer| > q.msgSize then (q, Done(ERROR))
    else if q.free == [] then (q, Done(EFULL))
    else (q.(free := q.free[1..], flights := q.flights[t := Flight(q.free[0], Grabbed(buffer, urgent))]), Holds)
  }

  /** The node's bytes when the buffer has been copied to its start */
  function Overlay(old_: Bytes, buffer: Bytes): Bytes
    requires |buffer| <= |old_|
  {
    buffer + old_[|buffer|..]
  }

  /** Copying the caller's buffer into the node */
  function Fill(q: Queue, t: Tid): Queue
    requires Stands(q, t) && q.flights[t].stage.Grabbed? && |q.flights[t].stage.buffer| <= |q.payload[q.flights[t].node]|
  {
    var f := q.flights[t];
    q.(payload := q.payload[f.node := Overlay(q.payload[f.node], f.stage.buffer)],
       flights := q.flights[t := Flight(f.node, Filled(f.stage.buffer, f.stage.urgent))])
  }

  /** Linking the node: at the end, or for an urgent message at the head. */
  function Enqueue(q: Queue, t: Tid): Queue
    requires t in q.flights && q.flights[t].stage.Filled?
  {
    var f := q.flights[t];
    var link := Link(q.clock, f.stage.urgent, f.stage.message);
    q.(queue := if f.stage.urgent then [f.node] + q.queue else q.queue + [f.node],
       links := if f.stage.urgent then [link] + q.links else q.links + [link],
       clock := q.clock + 1, entry := q.entry + 1, flights := q.flights - {t})
  }

  function Wake(q: Queue): Queue {
    if q.receivers == [] then q
    else q.(receivers := q.receivers[1..], pending := q.pending[q.receivers[0] := EOK])
  }

  function Waiting(q: Queue, t: Tid, size: nat, timeout: int): Queue
    requires t in q.priority && forall w :: w in q.receivers ==> w in q.priority
  {
    q.(receivers := Queued(q.flag, q.receivers, q.priority, t), waits := q.waits[t := Wait(size, timeout)])
  }

  /** rt_mq_recv from the test for an empty queue on */
  function Recv(q: Queue, t: Tid, size: nat, timeout: int): (Queue, Outcome)
    requires t in q.priority && (forall w :: w in q.receivers ==> w in q.priority)
    requires q.entry != 0 ==> q.queue != [] && q.links != []
  {
    if q.entry == 0 then
      if timeout == 0 then (q, Done(ETIMEOUT))
      else (Waiting(q, t, size, timeout), Waits)
    else
      (q.(queue := q.queue[1..], links := q.links[1..], entry := q.entry - 1,
          flights := q.flights[t := Flight(q.queue[0], Taken(size, q.links[0]))]), Holds)
  }

  /** The waiting time left when `elapsed` ticks of it have gone. */
  function Left(timeout: int, elapsed: nat): int {
    if timeout > 0 then (if timeout - elapsed < 0 then 0 else timeout - elapsed) else timeout
  }

  function Off(q: Queue, t: Tid): Queue {
    q.(waits := q.waits - {t}, pending := q.pending - {t})
  }

  /** A resumed receiver runs again: it returns its error, or goes back to the test. */
  function Resume(q: Queue, t: Tid, elapsed: nat): (Queue, Outcome)
    requires t in q.pending && t in q.waits && t in q.priority && (forall w :: w in q.receivers ==> w in q.priority)
    requires q.entry != 0 ==> q.queue != [] && q.links != []
  {
    if q.pending[t] != EOK then (Off(q, t), Done(q.pending[t]))
    else Recv(Off(q, t), t, q.waits[t].size, Left(q.waits[t].timeout, elapsed))
  }

  /** Copying the message out of the node, no more than it holds */
  function CopyOut(q: Queue, t: Tid): Queue
    requires Stands(q, t) && q.flights[t].stage.Taken? && |q.payload[q.flights[t].node]| == q.msgSize
  {
    var f := q.flights[t];
    var n := if f.stage.size > q.msgSize then q.msgSize else f.stage.size;
    q.(flights := q.flights[t := Flight(f.node, Copied(q.payload[f.node][..n], f.stage.link))])
  }

  /** Putting the node back on the free list */
  function PutBack(q: Queue, t: Tid): (Queue, Outcome)
    requires t in q.flights && q.flights[t].stage.Copied?
  {
    (q.(free := [q.flights[t].node] + q.free, flights := q.flights - {t}), Delivered(q.flights[t].stage.output))
  }

  /** rt_thread_timeout of a waiting receiver */
  function TimeOut(q: Queue, t: Tid): Queue {
    q.(receivers := Erase(q.receivers, t), pending := q.pending[t := ETIMEOUT])
  }

  function Reversed<T>(s: seq<T>): (r: seq<T>)
    ensures |r| == |s|
  {
    if s == [] then [] else Reversed(s[1..]) + [s[0]]
  }

  /** rt_mq_control with RT_IPC_CMD_RESET: the queued nodes go back one by one. */
  function Reset(q: Queue): Queue {
    q.(receivers := [], pending := Failed(q.pending, q.receivers),
       free := Reversed(q.queue) + q.free, queue := [], links := [], entry := 0)
  }

  // ---------------------------------------------------------------- what always holds

  predicate HeldBy(flights: map<Tid, Flight>, t: Tid, n: Node) {
    t in flights && flights[t].node == n
  }

  ghost predicate Held(flights: map<Tid, Flight>, n: Node) {
    exists t :: HeldBy(flights, t, n)
  }

  /** Every node of the pool is in exactly one place, once: on the free list, in the queue, or with one call. */
  ghost predicate Partition(max: nat, free: seq<Node>, queue: seq<Node>, flights: map<Tid, Flight>) {
    && Distinct(free) && Distinct(queue)
    && (forall t, u :: t in flights && u in flights && flights[t].node == flights[u].node ==> t == u)
    && (forall n :: n in free ==> n < max && n !in queue && !Held(flights, n))
    && (forall n :: n in queue ==> n < max && !Held(flights, n))
    && (forall t :: t in flights ==> flights[t].node < max)
    && (forall n :: 0 <= n < max ==> n in free || n in queue || Held(flights, n))
  }

  /** The urgent messages come first, the latest first; behind them the others in the order of linking. */
  predicate Before(a: Link, b: Link) {
    if a.urgent then (b.urgent ==> b.stamp < a.stamp) else !b.urgent && a.stamp < b.stamp
  }

  ghost predicate Ordered(links: seq<Link>, clock: nat) {
    && (forall i :: 0 <= i < |links| ==> links[i].stamp < clock)
    && (forall i, j :: 0 <= i < j < |links| ==> Before(links[i], links[j]))
  }

  /** The bytes are the message, followed by whatever was in the node before. */
  predicate Carries(bytes: Bytes, message: Bytes) {
    message <= bytes
  }

  /** Two byte strings agree as far as both go. */
  predicate Agree(a: Bytes, b: Bytes) {
    a <= b || b <= a
  }

  ghost predicate Contents(q: Queue) {
    && |q.links| == |q.queue| == q.entry
    && (forall n :: 0 <= n < |q.payload| ==> |q.payload[n]| == q.msgSize)
    && (forall i :: 0 <= i < |q.queue| ==> q.queue[i] < |q.payload| && Carries(q.payload[q.queue[i]], q.links[i].message))
  }

  /** What is known of a call's node at each stage. */
  predicate StageOk(msgSize: nat, payload: seq<Bytes>, f: Flight) {
    && f.node < |payload|
    && match f.stage
       case Grabbed(buffer, _) => |buffer| <= msgSize
       case Filled(message, _) => Carries(payload[f.node], message)
       case Taken(_, link) => Carries(payload[f.node], link.message)
       case Copied(output, link) => |output| <= msgSize && Agree(output, link.message)
  }

  ghost predicate Stages(q: Queue) {
    forall t :: t in q.flights ==> StageOk(q.msgSize, q.payload, q.flights[t])
  }

  ghost predicate Waiters(q: Queue) {
    && Distinct(q.receivers)
    && (forall t :: t in q.receivers ==> t in q.waits && t !in q.pending)
    && (forall t :: t in q.pending ==> t in q.waits)
    && (forall t :: t in q.waits ==> t in q.priority && t !in q.flights)
    && (q.flag == PRIO ==> (forall t :: t in q.receivers ==> t in q.priority) && Sorted(q.receivers, q.priority))
  }

  /** While receivers wait, every queued message is spoken for by a woken receiver. */
  ghost predicate NoLostWakeup(q: Queue, spare: nat) {
    q.receivers != [] ==> q.entry <= |Woken(q.pending)| + spare
  }

  ghost predicate InvBut(q: Queue, spare: nat) {
    && Partition(|q.payload|, q.free, q.queue, q.flights)
    && Ordered(q.links, q.clock) && Contents(q) && Stages(q) && Waiters(q) && NoLostWakeup(q, spare)
  }

  ghost predicate Inv(q: Queue) {
    InvBut(q, 0)
  }

  // ---------------------------------------------------------------- nodes change places

  /** From the front of the free list to a call */
  lemma FreeToCall(max: nat, free: seq<Node>, queue: seq<Node>, flights: map<Tid, Flight>, t: Tid, f: Flight)
    requires Partition(max, free, queue, flights) && free != [] && t !in flights && f.node == free[0]
    ensures Partition(max, free[1..], queue, flights[t := f])
  {
    Behead(free);
    hide Distinct;
    assert free[0] in free;
    forall u | u in flights ensures flights[u].node != f.node {
      assert HeldBy(flights, u, flights[u].node);
    }
    HeldMore(flights, t, f);
    hide Held;
  }

  /** From the front of the queue to a call */
  lemma QueueToCall(max: nat, free: seq<Node>, queue: seq<Node>, flights: map<Tid, Flight>, t: Tid, f: Flight)
    requires Partition(max, free, queue, flights) && queue != [] && t !in flights && f.node == queue[0]
    ensures Partition(max, free, queue[1..], flights[t := f])
  {
    Behead(queue);
    hide Distinct;
    assert queue[0] in queue;
    forall u | u in flights ensures flights[u].node != f.node {
      assert HeldBy(flights, u, flights[u].node);
    }
    HeldMore(flights, t, f);
    hide Held;
  }

  /** From a call to a place in the queue */
  lemma CallToQueue(max: nat, free: seq<Node>, queue: seq<Node>, flights: map<Tid, Flight>, t: Tid, i: nat)
    requires Partition(max, free, queue, flights) && t in flights && i <= |queue|
    ensures Partition(max, free, InsertAt(queue, i, flights[t].node), flights - {t})
  {
    var n := flights[t].node;
    assert HeldBy(flights, t, n);
    InsertDistinct(queue, i, n);
    forall x ensures x in InsertAt(queue, i, n) <==> x in queue || x == n {
      InsertMembers(queue, i, n, x);
    }
    hide Distinct, InsertAt;
    HeldLess(flights, t);
    hide Held;
  }

  /** From a call to the front of the free list */
  lemma CallToFree(max: nat, free: seq<Node>, queue: seq<Node>, flights: map<Tid, Flight>, t: Tid)
    requires Partition(max, free, queue, flights) && t in flights
    ensures Partition(max, [flights[t].node] + free, queue, flights - {t})
  {
    var n := flights[t].node;
    assert HeldBy(flights, t, n);
    HeldLess(flights, t);
    hide Held;
    JoinDistinct([n], free);
    hide Distinct;
  }

  lemma JoinDistinct(a: seq<Node>, b: seq<Node>)
    requires Distinct(a) && Distinct(b) && forall x :: x in a ==> x !in b
    ensures Distinct(a + b)
  {
    var s := a + b;
    forall i, j | 0 <= i < j < |s| ensures s[i] != s[j] {
      assert i < |a| <= j ==> s[i] in a && s[j] in b;
    }
  }

  lemma HeldMore(flights: map<Tid, Flight>, t: Tid, f: Flight)
    requires t !in flights
    ensures forall n :: Held(flights[t := f], n) <==> Held(flights, n) || n == f.node
  {
    forall n ensures Held(flights[t := f], n) <==> Held(flights, n) || n == f.node {
      HeldAfter(flights, t, f, n);
    }
  }

  lemma HeldAfter(flights: map<Tid, Flight>, t: Tid, f: Flight, n: Node)
    requires t in flights ==> flights[t].node == f.node
    ensures Held(flights[t := f], n) <==> Held(flights, n) || n == f.node
  {
    var flights' := flights[t := f];
    assert HeldBy(flights', t, f.node);
    if Held(flights', n) && n != f.node {
      var u :| HeldBy(flights', u, n);
      assert HeldBy(flights, u, n);
    }
    if Held(flights, n) {
      var u :| HeldBy(flights, u, n);
      assert HeldBy(flights', u, n);
    }
  }

  lemma HeldLess(flights: map<Tid, Flight>, t: Tid)
    requires t in flights && forall u, v :: u in flights && v in flights && flights[u].node == flights[v].node ==> u == v
    ensures forall n :: Held(flights - {t}, n) <==> Held(flights, n) && n != flights[t].node
  {
    forall n ensures Held(flights - {t}, n) <==> Held(flights, n) && n != flights[t].node {
      if Held(flights - {t}, n) {
        var u :| HeldBy(flights - {t}, u, n);
        assert HeldBy(flights, u, n);
      }
      if Held(flights, n) && n != flights[t].node {
        var u :| HeldBy(flights, u, n);
        assert HeldBy(flights - {t}, u, n);
      }
    }
  }

  /** A call goes on to its next stage with the same node. */
  lemma SameNode(max: nat, free: seq<Node>, queue: seq<Node>, flights: map<Tid, Flight>, t: Tid, f: Flight)
    requires Partition(max, free, queue, flights) && t in flights && f.node == flights[t].node
    ensures Partition(max, free, queue, flights[t := f])
  {
    hide Distinct;
    assert HeldBy(flights, t, f.node);
    forall n ensures Held(flights[t := f], n) <==> Held(flights, n) {
      HeldAfter(flights, t, f, n);
    }
    hide Held;
  }

  lemma {:induction false} ReversedMembers<T>(s: seq<T>)
    ensures forall x :: x in Reversed(s) <==> x in s
    ensures Distinct(s) ==> Distinct(Reversed(s))
  {
    if s != [] {
      ReversedMembers(s[1..]);
      assert s == [s[0]] + s[1..];
      if Distinct(s) {
        Behead(s);
      }
    }
  }

  /** All of the queue to the free list */
  lemma QueueToFree(max: nat, free: seq<Node>, queue: seq<Node>, flights: map<Tid, Flight>)
    requires Partition(max, free, queue, flights)
    ensures Partition(max, Reversed(queue) + free, [], flights)
  {
    hide Held;
    ReversedMembers(queue);
    hide Reversed;
    JoinDistinct(Reversed(queue), free);
    hide Distinct;
  }

  // ---------------------------------------------------------------- every step keeps the invariant

  lemma InvReady(q: Queue)
    requires Inv(q)
    ensures q.entry != 0 ==> q.queue != [] && q.links != []
    ensures forall w :: w in q.receivers ==> w in q.priority
  {
  }

  lemma GrabKeeps(q: Queue, t: Tid, buffer: Bytes, urgent: bool)
    requires Inv(q) && Idle(q, t)
    ensures Inv(Grab(q, t, buffer, urgent).0)
    ensures Grab(q, t, buffer, urgent).1 == Done(EFULL) ==> q.free == []
  {
    hide Ordered, Distinct, Woken, Carries;
    if |buffer| <= q.msgSize && q.free != [] {
      assert q.free[0] in q.free;
      FreeToCall(|q.payload|, q.free, q.queue, q.flights, t, Flight(q.free[0], Grabbed(buffer, urgent)));
    }
    hide Partition;
  }

  lemma FillKeeps(q: Queue, t: Tid)
    requires Inv(q) && t in q.flights && q.flights[t].stage.Grabbed?
    ensures Stands(q, t) && |q.flights[t].stage.buffer| <= |q.payload[q.flights[t].node]|
    ensures Inv(Fill(q, t))
  {
    hide Ordered, Distinct, Woken;
    var f := q.flights[t];
    assert StageOk(q.msgSize, q.payload, f);
    var q' := Fill(q, t);
    SameNode(|q.payload|, q.free, q.queue, q.flights, t, q'.flights[t]);
    assert HeldBy(q.flights, t, f.node);
    forall i | 0 <= i < |q.queue| ensures q.queue[i] != f.node {
      assert q.queue[i] in q.queue;
    }
    forall u | u in q'.flights ensures StageOk(q.msgSize, q'.payload, q'.flights[u]) {
      assert StageOk(q.msgSize, q.payload, q.flights[u]);
    }
    hide Partition, StageOk, Carries;
  }

  lemma EnqueueKeeps(q: Queue, t: Tid)
    requires Inv(q) && t in q.flights && q.flights[t].stage.Filled?
    ensures Inv(Wake(Enqueue(q, t)))
  {
    EnqueueOrdered(q, t);
    EnqueueContents(q, t);
    var q1 := Enqueue(q, t);
    var i := if q.flights[t].stage.urgent then 0 else |q.queue|;
    CallToQueue(|q.payload|, q.free, q.queue, q.flights, t, i);
    assert q1.queue == InsertAt(q.queue, i, q.flights[t].node);
    hide Partition, Ordered, Contents, StageOk, Distinct, Woken;
    assert InvBut(q1, 1);
    WakeKeeps(q1);
  }

  lemma EnqueueOrdered(q: Queue, t: Tid)
    requires Ordered(q.links, q.clock) && t in q.flights && q.flights[t].stage.Filled?
    ensures Ordered(Enqueue(q, t).links, q.clock + 1)
  {
  }

  lemma EnqueueContents(q: Queue, t: Tid)
    requires Contents(q) && Stages(q) && t in q.flights && q.flights[t].stage.Filled?
    ensures Contents(Enqueue(q, t))
  {
    hide Carries;
    assert StageOk(q.msgSize, q.payload, q.flights[t]);
  }

  lemma TailSorted(flag: Flag, waiters: seq<Tid>, priority: map<Tid, nat>)
    requires flag == PRIO ==> (forall t :: t in waiters ==> t in priority) && Sorted(waiters, priority)
    ensures waiters != [] && flag == PRIO ==> (forall t :: t in waiters[1..] ==> t in priority) && Sorted(waiters[1..], priority)
  {
    if waiters != [] && flag == PRIO {
      var l := waiters[1..];
      assert forall j :: 0 <= j < |l| ==> l[j] == waiters[j + 1];
      assert forall t :: t in l ==> t in waiters;
    }
  }

  /** One more woken receiver */
  lemma WakeKeeps(q: Queue)
    requires InvBut(q, 1)
    ensures Inv(Wake(q))
  {
    hide Partition, Ordered, StageOk, Carries, Sorted;
    if q.receivers != [] {
      Behead(q.receivers);
      TailSorted(q.flag, q.receivers, q.priority);
      hide Distinct;
      var t, q' := q.receivers[0], Wake(q);
      assert t in q.receivers;
      WokenMore(q.pending, t);
      hide Woken;
      assert Contents(q');
      hide Contents;
    }
  }

  lemma RecvKeeps(q: Queue, t: Tid, size: nat, timeout: int)
    requires (InvBut(q, 1) || Inv(q)) && Idle(q, t)
    requires (q.entry != 0 ==> q.queue != [] && q.links != []) && forall w :: w in q.receivers ==> w in q.priority
    ensures Inv(Recv(q, t, size, timeout).0)
    ensures Recv(q, t, size, timeout).1.Holds? ==> q.links != [] && Recv(q, t, size, timeout).0.flights[t].stage == Taken(size, q.links[0])
  {
    if q.entry == 0 {
      if timeout != 0 {
        StartWaitKeeps(q, t, size, timeout);
      }
    } else {
      TakeKeeps(q, t, size, timeout);
    }
  }

  lemma StartWaitKeeps(q: Queue, t: Tid, size: nat, timeout: int)
    requires (InvBut(q, 1) || Inv(q)) && Idle(q, t) && q.entry == 0 && forall w :: w in q.receivers ==> w in q.priority
    ensures Inv(Waiting(q, t, size, timeout))
  {
    hide Partition, Ordered, StageOk, Carries, Sorted;
    QueuedProps(q.flag, q.receivers, q.priority, t);
    hide Queued, Distinct, Woken;
    var q' := Waiting(q, t, size, timeout);
    assert Contents(q') && Stages(q');
    hide Contents, Stages;
  }

  lemma TakeKeeps(q: Queue, t: Tid, size: nat, timeout: int)
    requires (InvBut(q, 1) || Inv(q)) && Idle(q, t) && q.entry != 0 && q.queue != [] && q.links != []
    requires forall w :: w in q.receivers ==> w in q.priority
    ensures Inv(Recv(q, t, size, timeout).0)
  {
    hide Distinct, Woken;
    var q' := Recv(q, t, size, timeout).0;
    QueueToCall(|q.payload|, q.free, q.queue, q.flights, t, q'.flights[t]);
    hide Partition;
    assert StageOk(q.msgSize, q.payload, q'.flights[t]);
    hide StageOk, Carries, Before;
    forall i, j | 0 <= i < j < |q'.links| ensures Before(q'.links[i], q'.links[j]) {
      assert Before(q.links[i + 1], q.links[j + 1]);
    }
  }

  lemma ResumeKeeps(q: Queue, t: Tid, elapsed: nat)
    requires Inv(q) && t in q.pending
    ensures t in q.waits && t in q.priority && (forall w :: w in q.receivers ==> w in q.priority)
            && (q.entry != 0 ==> q.queue != [] && q.links != [])
    ensures Inv(Resume(q, t, elapsed).0)
  {
    InvReady(q);
    OffKeeps(q, t);
    hide InvBut, Recv;
    if q.pending[t] == EOK {
      RecvKeeps(Off(q, t), t, q.waits[t].size, Left(q.waits[t].timeout, elapsed));
    }
  }

  lemma OffKeeps(q: Queue, t: Tid)
    requires Inv(q) && t in q.pending
    ensures Idle(Off(q, t), t) && InvBut(Off(q, t), if q.pending[t] == EOK then 1 else 0)
  {
    hide Partition, Ordered, StageOk, Carries, Distinct;
    WokenLess(q.pending, t);
    hide Woken;
    assert Contents(Off(q, t)) && Stages(Off(q, t));
    hide Contents, Stages;
  }

  lemma CopyOutKeeps(q: Queue, t: Tid)
    requires Inv(q) && t in q.flights && q.flights[t].stage.Taken?
    ensures Stands(q, t) && |q.payload[q.flights[t].node]| == q.msgSize
    ensures Inv(CopyOut(q, t))
  {
    hide Ordered, Distinct, Woken;
    var f := q.flights[t];
    assert StageOk(q.msgSize, q.payload, f);
    var q' := CopyOut(q, t);
    SameNode(|q.payload|, q.free, q.queue, q.flights, t, q'.flights[t]);
    hide Partition;
    assert StageOk(q.msgSize, q.payload, q'.flights[t]);
    hide StageOk, Carries;
  }

  /** What a receiver gets agrees with the message as it was sent, as far as both go. */
  lemma PutBackKeeps(q: Queue, t: Tid)
    requires Inv(q) && t in q.flights && q.flights[t].stage.Copied?
    ensures Inv(PutBack(q, t).0)
    ensures Agree(PutBack(q, t).1.output, q.flights[t].stage.taken.message)
  {
    hide Ordered, Distinct, Woken;
    CallToFree(|q.payload|, q.free, q.queue, q.flights, t);
    assert StageOk(q.msgSize, q.payload, q.flights[t]);
    hide Partition, StageOk, Carries;
  }

  lemma TimeOutKeeps(q: Queue, t: Tid)
    requires Inv(q) && t in q.receivers
    ensures Inv(TimeOut(q, t))
    ensures Gone(q.receivers, TimeOut(q, t).receivers, t) && TimeOut(q, t).pending == q.pending[t := ETIMEOUT]
  {
    hide Partition, Ordered, StageOk, Carries, Sorted;
    EraseProps(q.receivers, t);
    if q.flag == PRIO {
      EraseSorted(q.receivers, q.priority, t);
    }
    EraseDistinct(q.receivers, t);
    hide Erase, Distinct;
    var q' := TimeOut(q, t);
    assert Woken(q'.pending) == Woken(q.pending);
    hide Woken;
  }

  lemma ResetKeeps(q: Queue)
    requires Inv(q)
    ensures Inv(Reset(q))
  {
    QueueToFree(|q.payload|, q.free, q.queue, q.flights);
    hide Partition, StageOk, Carries, Distinct, Woken;
  }

  // ---------------------------------------------------------------- what the callers see

  /** How a send or urgent begins: it fails with -RT_ERROR if the message is too long for a slot and with -RT_EFULL if
      no slot is free; otherwise the call holds a slot that was free, and what it was asked to send. */
  lemma GrabMeans(q: Queue, t: Tid, buffer: Bytes, urgent: bool)
    requires Inv(q) && Idle(q, t)
    ensures var (q', r) := Grab(q, t, buffer, urgent);
            if |buffer| > q.msgSize then r == Done(ERROR) && q' == q
            else if q.free == [] then r == Done(EFULL) && q' == q
            else
              && r == Holds && t in q'.flights && q'.flights[t].stage == Grabbed(buffer, urgent)
              && q'.flights[t].node in q.free && Gone(q.free, q'.free, q'.flights[t].node)
              && q'.links == q.links && q'.payload == q.payload && q'.receivers == q.receivers
  {
    if q.free != [] {
      Behead(q.free);
      assert q.free == [q.free[0]] + q.free[1..];
    }
    hide Partition, Ordered, Contents, Stages, Waiters, NoLostWakeup, Distinct;
  }

  /** The slot of the call begins with its message then; no other slot changes. */
  lemma FillMeans(q: Queue, t: Tid)
    requires Inv(q) && t in q.flights && q.flights[t].stage.Grabbed?
    ensures Stands(q, t) && |q.flights[t].stage.buffer| <= |q.payload[q.flights[t].node]|
    ensures var (q', f) := (Fill(q, t), q.flights[t]);
            && t in q'.flights && q'.flights[t] == Flight(f.node, Filled(f.stage.buffer, f.stage.urgent))
            && |q'.payload| == |q.payload| && f.stage.buffer <= q'.payload[f.node]
            && (forall n :: 0 <= n < |q.payload| && n != f.node ==> q'.payload[n] == q.payload[n])
            && q'.links == q.links && q'.free == q.free && q'.receivers == q.receivers
  {
    FillKeeps(q, t);
    hide Inv;
  }

  /** The first of the receivers that wait leaves the list and will find RT_EOK. */
  ghost predicate Serves(q: Queue, q': Queue) {
    if q.receivers == [] then q'.receivers == [] && q'.pending == q.pending
    else q.receivers == [q.receivers[0]] + q'.receivers && q'.pending == q.pending[q.receivers[0] := EOK]
  }

  /** Linking puts the message behind all others, or an urgent one before them, and resumes a receiver. */
  lemma EnqueueMeans(q: Queue, t: Tid)
    requires Inv(q) && t in q.flights && q.flights[t].stage.Filled?
    ensures var (q', f) := (Wake(Enqueue(q, t)), q.flights[t]);
            var link := Link(q.clock, f.stage.urgent, f.stage.message);
            && t !in q'.flights && q'.payload == q.payload && q'.free == q.free
            && (if f.stage.urgent then q'.queue == [f.node] + q.queue && q'.links == [link] + q.links
                else q'.queue == q.queue + [f.node] && q'.links == q.links + [link])
            && Serves(q, q')
  {
    if q.receivers != [] {
      assert q.receivers == [q.receivers[0]] + q.receivers[1..];
    }
    hide Distinct, Sorted, Partition, Ordered, Contents, Stages, NoLostWakeup;
  }

  /** How a receive begins: with the first message if there is one; otherwise it returns -RT_ETIMEOUT if it will not
      wait, and else it waits. */
  lemma RecvMeans(q: Queue, t: Tid, size: nat, timeout: int)
    requires (InvBut(q, 1) || Inv(q)) && Idle(q, t)
    ensures (q.entry != 0 ==> q.queue != [] && q.links != []) && forall w :: w in q.receivers ==> w in q.priority
    ensures var (q', r) := Recv(q, t, size, timeout);
            if q.queue != [] then
              && r == Holds && q.links != [] && t in q'.flights && q'.flights[t] == Flight(q.queue[0], Taken(size, q.links[0]))
              && q'.queue == q.queue[1..] && q'.links == q.links[1..] && q'.receivers == q.receivers
            else if timeout == 0 then r == Done(ETIMEOUT) && q' == q
            else r == Waits && Joined(q.flag, q.receivers, q'.receivers, q.priority, t)
                 && t in q'.waits && q'.waits[t] == Wait(size, timeout) && q'.queue == [] && q'.pending == q.pending
  {
    if q.queue == [] {
      QueuedJoined(q.flag, q.receivers, q.priority, t);
    }
    hide Queued, Joined, Distinct, Sorted, Partition, Ordered, Stages, NoLostWakeup, Carries;
  }

  /** What is left of a receiver's patience */
  lemma LeftMeans(timeout: int, elapsed: nat)
    ensures timeout < 0 ==> Left(timeout, elapsed) == timeout
    ensures 0 <= timeout <= elapsed ==> Left(timeout, elapsed) == 0
    ensures timeout > elapsed ==> Left(timeout, elapsed) + elapsed == timeout
  {
  }

  /** A resumed receiver returns the error it was resumed with, or tries again with the time that is left. */
  lemma ResumeMeans(q: Queue, t: Tid, elapsed: nat)
    requires Inv(q) && t in q.pending
    ensures t in q.waits && t in q.priority && (forall w :: w in q.receivers ==> w in q.priority)
            && (q.entry != 0 ==> q.queue != [] && q.links != [])
    ensures var (q', r) := Resume(q, t, elapsed);
            var q1 := q.(waits := q.waits - {t}, pending := q.pending - {t});
            if q.pending[t] != EOK then r == Done(q.pending[t]) && q' == q1
            else InvBut(q1, 1) && (q', r) == Recv(q1, t, q.waits[t].size, Left(q.waits[t].timeout, elapsed))
  {
    InvReady(q);
    OffKeeps(q, t);
    hide InvBut, Recv;
  }

  /** A receiver that asks for at least as many bytes as the message has gets all of them first, and one that asks for
      fewer gets just those; a slot holds no more than msg_size. */
  lemma CopyOutMeans(q: Queue, t: Tid)
    requires Inv(q) && t in q.flights && q.flights[t].stage.Taken?
    ensures Stands(q, t) && |q.payload[q.flights[t].node]| == q.msgSize
    ensures var (q', f) := (CopyOut(q, t), q.flights[t]);
            && t in q'.flights && q'.flights[t].stage.Copied? && q'.flights[t].node == f.node
            && var (output, message) := (q'.flights[t].stage.output, f.stage.link.message);
            && |output| == (if f.stage.size > q.msgSize then q.msgSize else f.stage.size)
            && (f.stage.size >= |message| ==> message <= output)
            && (f.stage.size <= |message| ==> output == message[..f.stage.size])
  {
    CopyOutKeeps(q, t);
    assert StageOk(q.msgSize, q.payload, q.flights[t]);
    hide Inv;
  }

  /** A receive delivers what it has copied, and its slot is free again. */
  lemma PutBackMeans(q: Queue, t: Tid)
    requires Inv(q) && t in q.flights && q.flights[t].stage.Copied?
    ensures var (q', r) := PutBack(q, t);
            && r == Delivered(q.flights[t].stage.output) && t !in q'.flights && q'.payload == q.payload
            && q.flights[t].node in q'.free && Gone(q'.free, q.free, q.flights[t].node) && q'.links == q.links
  {
    var f := q.flights[t];
    assert HeldBy(q.flights, t, f.node);
    hide Ordered, Contents, Stages, Waiters, NoLostWakeup, Distinct;
  }

  /** A reset frees exactly the queued slots, and every waiting receive fails. */
  lemma ResetMeans(q: Queue)
    requires Inv(q)
    ensures Reset(q).receivers == [] && Reset(q).queue == [] && Reset(q).entry == 0 && Reset(q).flights == q.flights
    ensures forall n :: n in Reset(q).free <==> n in q.free || n in q.queue
    ensures forall t :: t in q.receivers ==> t in Reset(q).pending && Reset(q).pending[t] == ERROR
    ensures forall t :: t in q.pending ==> t in Reset(q).pending && Reset(q).pending[t] == q.pending[t]
  {
    ReversedMembers(q.queue);
    hide Partition, Ordered, Contents, Stages, NoLostWakeup, Reversed, Distinct, Sorted;
  }

  // ---------------------------------------------------------------- runs

  datatype Step =
    | GrabStep(t: Tid, buffer: Bytes, urgent: bool) | FillStep(t: Tid) | EnqueueStep(t: Tid)
    | RecvStep(t: Tid, size: nat, timeout: int) | ResumeStep(t: Tid, elapsed: nat) | CopyOutStep(t: Tid)
    | PutBackStep(t: Tid) | TimeOutStep(t: Tid) | ResetStep

  ghost predicate Possible(q: Queue, st: Step) {
    match st
    case GrabStep(t, _, _) => Idle(q, t)
    case FillStep(t) => t in q.flights && q.flights[t].stage.Grabbed?
    case EnqueueStep(t) => t in q.flights && q.flights[t].stage.Filled?
    case RecvStep(t, _, _) => Idle(q, t)
    case ResumeStep(t, _) => t in q.pending
    case CopyOutStep(t) => t in q.flights && q.flights[t].stage.Taken?
    case PutBackStep(t) => t in q.flights && q.flights[t].stage.Copied?
    case TimeOutStep(t) => t in q.receivers
    case ResetStep => true
  }

  lemma Ready(q: Queue, st: Step)
    requires Inv(q) && Possible(q, st)
    ensures match st
            case FillStep(t) => Stands(q, t) && |q.flights[t].stage.buffer| <= |q.payload[q.flights[t].node]|
            case ResumeStep(t, _) => t in q.waits && t in q.priority
            case CopyOutStep(t) => Stands(q, t) && |q.payload[q.flights[t].node]| == q.msgSize
            case _ => true
    ensures (q.entry != 0 ==> q.queue != [] && q.links != []) && (forall w :: w in q.receivers ==> w in q.priority)
  {
    InvReady(q);
    match st
    case FillStep(t) => FillKeeps(q, t);
    case CopyOutStep(t) => CopyOutKeeps(q, t);
    case _ =>
  }

  ghost function Next(q: Queue, st: Step): Queue
    requires Inv(q) && Possible(q, st)
  {
    Ready(q, st);
    match st
    case GrabStep(t, buffer, urgent) => Grab(q, t, buffer, urgent).0
    case FillStep(t) => Fill(q, t)
    case EnqueueStep(t) => Wake(Enqueue(q, t))
    case RecvStep(t, size, timeout) => Recv(q, t, size, timeout).0
    case ResumeStep(t, elapsed) => Resume(q, t, elapsed).0
    case CopyOutStep(t) => CopyOut(q, t)
    case PutBackStep(t) => PutBack(q, t).0
    case TimeOutStep(t) => TimeOut(q, t)
    case ResetStep => Reset(q)
  }

  ghost predicate Run(q: Queue, steps: seq<Step>, q': Queue)
    decreases |steps|
  {
    if steps == [] then q' == q else Inv(q) && Possible(q, steps[0]) && Run(Next(q, steps[0]), steps[1..], q')
  }

  lemma StepKeeps(q: Queue, st: Step)
    requires Inv(q) && Possible(q, st)
    ensures Inv(Next(q, st))
  {
    hide Inv, Grab, Fill, Wake, Enqueue, Recv, Resume, CopyOut, PutBack, TimeOut, Reset;
    Ready(q, st);
    match st {
      case GrabStep(t, buffer, urgent) => GrabKeeps(q, t, buffer, urgent);
      case FillStep(t) => FillKeeps(q, t);
      case EnqueueStep(t) => EnqueueKeeps(q, t);
      case RecvStep(t, size, timeout) => RecvKeeps(q, t, size, timeout);
      case ResumeStep(t, elapsed) => ResumeKeeps(q, t, elapsed);
      case CopyOutStep(t) => CopyOutKeeps(q, t);
      case PutBackStep(t) => PutBackKeeps(q, t);
      case TimeOutStep(t) => TimeOutKeeps(q, t);
      case ResetStep => ResetKeeps(q);
    }
  }

  /** The node lists rt_mq_init leaves: the last node of the pool comes first. */
  function AllNodes(max: nat): (s: seq<Node>)
    ensures |s| == max && forall i :: 0 <= i < max ==> s[i] == max - 1 - i
  {
    if max == 0 then [] else [max - 1] + AllNodes(max - 1)
  }

  lemma AllNodesDistinct(max: nat)
    ensures Distinct(AllNodes(max)) && forall n :: 0 <= n < max <==> n in AllNodes(max)
  {
    forall n | 0 <= n < max ensures n in AllNodes(max) {
      assert AllNodes(max)[max - 1 - n] == n;
    }
  }

  /** rt_mq_init */
  function Fresh(flag: Flag, msgSize: nat, payload: seq<Bytes>, priority: map<Tid, nat>): Queue {
    Queue(flag, msgSize, payload, AllNodes(|payload|), [], 0, [], 0, [], priority, map[], map[], map[])
  }

  lemma FreshInv(flag: Flag, msgSize: nat, payload: seq<Bytes>, priority: map<Tid, nat>)
    requires forall n :: 0 <= n < |payload| ==> |payload[n]| == msgSize
    ensures Inv(Fresh(flag, msgSize, payload, priority))
  {
    AllNodesDistinct(|payload|);
    hide AllNodes;
  }

  /** Whatever the interleaving: the pool stays partitioned into free, queued and held nodes, the messages keep
      their order and their bytes, and no receiver misses a message. */
  lemma {:induction false} RunKeeps(q: Queue, steps: seq<Step>, q': Queue)
    requires Inv(q) && Run(q, steps, q')
    ensures Inv(q')
    decreases |steps|
  {
    hide Inv, Possible;
    if steps != [] {
      StepKeeps(q, steps[0]);
      RunKeeps(Next(q, steps[0]), steps[1..], q');
    }
  }

  // ---------------------------------------------------------------- consequences

  ghost function Nodes(s: seq<Node>): set<Node> {
    set n | n in s
  }

  lemma {:induction false} DistinctSize(s: seq<Node>)
    requires Distinct(s)
    ensures |Nodes(s)| == |s|
  {
    if s == [] {
      assert Nodes(s) == {};
    } else {
      Behead(s);
      DistinctSize(s[1..]);
      assert Nodes(s) == Nodes(s[1..]) + {s[0]};
    }
  }

  ghost function HeldNodes(flights: map<Tid, Flight>): set<Node> {
    set t | t in flights :: flights[t].node
  }

  lemma HeldIn(flights: map<Tid, Flight>, n: Node)
    ensures n in HeldNodes(flights) <==> Held(flights, n)
  {
    if n in HeldNodes(flights) {
      var t :| t in flights && flights[t].node == n;
      assert HeldBy(flights, t, n);
    }
    if Held(flights, n) {
      var t :| HeldBy(flights, t, n);
    }
  }

  lemma {:induction false} HeldSize(flights: map<Tid, Flight>)
    requires forall t, u :: t in flights && u in flights && flights[t].node == flights[u].node ==> t == u
    ensures |HeldNodes(flights)| == |flights|
    decreases |flights|
  {
    if flights == map[] {
      assert HeldNodes(flights) == {};
    } else {
      var t :| t in flights;
      var rest := flights - {t};
      assert rest.Keys == flights.Keys - {t};
      HeldSize(rest);
      HeldLess(flights, t);
      assert HeldBy(flights, t, flights[t].node);
      forall n ensures n in HeldNodes(flights) <==> n in HeldNodes(rest) || n == flights[t].node {
        HeldIn(flights, n);
        HeldIn(rest, n);
      }
      hide HeldNodes, Held;
      assert HeldNodes(flights) == HeldNodes(rest) + {flights[t].node};
    }
  }

  /** No node is lost or counted twice: free nodes, queued messages and calls under way make up max_msgs. */
  lemma NodesConserved(q: Queue)
    requires Inv(q)
    ensures |q.free| + q.entry + |q.flights| == |q.payload|
  {
    hide Ordered, StageOk, Carries, Woken;
    Counted(|q.payload|, q.free, q.queue, q.flights);
    hide Partition;
  }

  lemma Counted(max: nat, free: seq<Node>, queue: seq<Node>, flights: map<Tid, Flight>)
    requires Partition(max, free, queue, flights)
    ensures |free| + |queue| + |flights| == max
  {
    DistinctSize(free);
    DistinctSize(queue);
    HeldSize(flights);
    AllNodesDistinct(max);
    DistinctSize(AllNodes(max));
    hide Distinct, AllNodes;
    forall n ensures n in HeldNodes(flights) <==> Held(flights, n) {
      HeldIn(flights, n);
    }
    hide HeldNodes, Held;
    assert Nodes(free) !! Nodes(queue) && (Nodes(free) + Nodes(queue)) !! HeldNodes(flights);
    assert Nodes(free) + Nodes(queue) + HeldNodes(flights) == Nodes(AllNodes(max));
  }

  /** A message is refused as one too many only when every node is queued or with a call under way. */
  lemma FullExactly(q: Queue, t: Tid, buffer: Bytes, urgent: bool)
    requires Inv(q) && Idle(q, t) && |buffer| <= q.msgSize
    ensures Grab(q, t, buffer, urgent).1 == Done(EFULL) <==> q.entry + |q.flights| == |q.payload|
  {
    NodesConserved(q);
  }

  /** When no resumed receiver is still to run, receivers wait only for an empty queue. */
  lemma Quiescent(q: Queue)
    requires Inv(q) && q.pending == map[] && q.receivers != []
    ensures q.entry == 0
  {
    assert Woken(q.pending) == {};
  }
}
