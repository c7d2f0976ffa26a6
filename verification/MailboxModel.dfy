/** A mailbox of src/ipc.c: the atomic steps of send, receive, timeout and reset, and what holds after any
    interleaving of them: no wakeup is lost, and mails come out in the order they went in. */
module MailboxModel {
  import opened Basics
  import opened WaitList

  type Mail = int

  /** What a thread inside rt_mb_send_wait or rt_mb_recv has left to do. */
  datatype Call = Sending(value: Mail, timeout: int) | Receiving(timeout: int)

  /** The mailbox object and the threads that use it.  `calls` are the threads that have been suspended in a
      call and have not returned from it, `pending` those of them that have been resumed, with their error
      codes.  For the statements only: `sent` and `received` are the mails linked and taken since the last reset,
      and `since` numbers the waiters in the order they came. */
  datatype Box = Box(
    flag: Flag, pool: seq<Mail>, inOffset: nat, outOffset: nat, entry: nat,
    receivers: seq<Tid>, senders: seq<Tid>, priority: map<Tid, nat>,
    calls: map<Tid, Call>, pending: map<Tid, Err>, sent: seq<Mail>, received: seq<Mail>,
    since: map<Tid, nat>, clock: nat)

  /** Of a step: the thread waits, the call returns a code, or it returns a mail. */
  datatype Outcome = Waits | Done(err: Err) | Got(value: Mail)

  // ---------------------------------------------------------------- the ring

  /** x, which is less than twice n, around a ring of n */
  function Wrap(x: nat, n: nat): nat {
    if x < n then x else x - n
  }

  lemma WrapIsModulo(x: nat, n: nat)
    requires 0 < n && x < 2 * n
    ensures Wrap(x, n) == x % n
  {
  }

  ghost predicate RingOk(b: Box) {
    && b.entry <= |b.pool|
    && (|b.pool| > 0 ==> b.outOffset < |b.pool| && b.inOffset == Wrap(b.outOffset + b.entry, |b.pool|))
  }

  /** The mails in the box, first to come out first. */
  function Contents(b: Box): seq<Mail>
    requires b.entry <= |b.pool| && (|b.pool| > 0 ==> b.outOffset < |b.pool|)
  {
    seq(b.entry, i requires 0 <= i < b.entry => b.pool[Wrap(b.outOffset + i, |b.pool|)])
  }

  /** Linking a mail */
  function Put(b: Box, v: Mail): Box
    requires b.inOffset < |b.pool|
  {
    b.(pool := b.pool[b.inOffset := v],
       inOffset := if b.inOffset + 1 >= |b.pool| then 0 else b.inOffset + 1,
       entry := b.entry + 1, sent := b.sent + [v])
  }

  /** Taking a mail */
  function Get(b: Box): (Box, Mail)
    requires b.outOffset < |b.pool| && b.entry > 0
  {
    (b.(outOffset := if b.outOffset + 1 >= |b.pool| then 0 else b.outOffset + 1,
        entry := b.entry - 1, received := b.received + [b.pool[b.outOffset]]), b.pool[b.outOffset])
  }

  /** A mail goes in at the end. */
  lemma PutAtEnd(b: Box, v: Mail)
    requires RingOk(b) && b.entry < |b.pool|
    ensures b.inOffset < |b.pool| && RingOk(Put(b, v)) && Contents(Put(b, v)) == Contents(b) + [v]
  {
    var b' := Put(b, v);
    var n := |b.pool|;
    forall i | 0 <= i < b'.entry ensures Contents(b')[i] == (Contents(b) + [v])[i] {
      assert Contents(b')[i] == b'.pool[Wrap(b.outOffset + i, n)];
      if i < b.entry {
        assert Wrap(b.outOffset + i, n) != b.inOffset;
        assert Contents(b)[i] == b.pool[Wrap(b.outOffset + i, n)];
      }
    }
  }

  /** A mail comes out at the front. */
  lemma GetAtFront(b: Box)
    requires RingOk(b) && b.entry > 0
    ensures b.outOffset < |b.pool| && RingOk(Get(b).0) && Contents(b) == [Get(b).1] + Contents(Get(b).0)
  {
    var b' := Get(b).0;
    var n := |b.pool|;
    forall i | 0 <= i < b.entry ensures Contents(b)[i] == ([Get(b).1] + Contents(b'))[i] {
      assert Contents(b)[i] == b.pool[Wrap(b.outOffset + i, n)];
      if i > 0 {
        assert Wrap(b'.outOffset + (i - 1), n) == Wrap(b.outOffset + i, n);
        assert Contents(b')[i - 1] == b.pool[Wrap(b'.outOffset + (i - 1), n)];
      }
    }
  }

  // ---------------------------------------------------------------- steps

  function WakeReceiver(b: Box): Box {
    if b.receivers == [] then b
    else b.(receivers := b.receivers[1..], pending := b.pending[b.receivers[0] := EOK])
  }

  function WakeSender(b: Box): Box {
    if b.senders == [] then b
    else b.(senders := b.senders[1..], pending := b.pending[b.senders[0] := EOK])
  }

  predicate Idle(b: Box, t: Tid) {
    t in b.priority && t !in b.calls
  }

  ghost predicate Known(b: Box) {
    (forall w :: w in b.receivers ==> w in b.priority) && (forall w :: w in b.senders ==> w in b.priority)
  }

  function WaitingSender(b: Box, t: Tid, v: Mail, timeout: int): Box
    requires t in b.priority && Known(b)
  {
    b.(senders := Queued(b.flag, b.senders, b.priority, t), calls := b.calls[t := Sending(v, timeout)],
       since := b.since[t := b.clock], clock := b.clock + 1)
  }

  function WaitingReceiver(b: Box, t: Tid, timeout: int): Box
    requires t in b.priority && Known(b)
  {
    b.(receivers := Queued(b.flag, b.receivers, b.priority, t), calls := b.calls[t := Receiving(timeout)],
       since := b.since[t := b.clock], clock := b.clock + 1)
  }

  /** rt_mb_send_wait from the test for a full box on */
  function Send(b: Box, t: Tid, v: Mail, timeout: int): (Box, Outcome)
    requires t in b.priority && Known(b) && (b.entry != |b.pool| ==> b.inOffset < |b.pool|)
  {
    if b.entry == |b.pool| then
      if timeout == 0 then (b, Done(EFULL))
      else (WaitingSender(b, t, v, timeout), Waits)
    else (WakeReceiver(Put(b, v)), Done(EOK))
  }

  /** rt_mb_recv from the test for an empty box on */
  function Recv(b: Box, t: Tid, timeout: int): (Box, Outcome)
    requires t in b.priority && Known(b) && (b.entry != 0 ==> b.outOffset < |b.pool|)
  {
    if b.entry == 0 then
      if timeout == 0 then (b, Done(ETIMEOUT))
      else (WaitingReceiver(b, t, timeout), Waits)
    else (WakeSender(Get(b).0), Got(Get(b).1))
  }

  /** The waiting time left when `elapsed` ticks of it have gone. */
  function Left(timeout: int, elapsed: nat): int {
    if timeout > 0 then (if timeout - elapsed < 0 then 0 else timeout - elapsed) else timeout
  }

  function Off(b: Box, t: Tid): Box {
    b.(calls := b.calls - {t}, pending := b.pending - {t})
  }

  /** A resumed thread runs again: it returns its error, or goes back to the test. */
  function Resume(b: Box, t: Tid, elapsed: nat): (Box, Outcome)
    requires t in b.pending && t in b.calls && t in b.priority && Known(b)
    requires (b.entry != |b.pool| ==> b.inOffset < |b.pool|) && (b.entry != 0 ==> b.outOffset < |b.pool|)
  {
    if b.pending[t] != EOK then (Off(b, t), Done(b.pending[t]))
    else
      match b.calls[t]
      case Sending(v, timeout) => Send(Off(b, t), t, v, Left(timeout, elapsed))
      case Receiving(timeout) => Recv(Off(b, t), t, Left(timeout, elapsed))
  }

  /** rt_thread_timeout of a waiting thread */
  function TimeOut(b: Box, t: Tid): Box {
    b.(receivers := Erase(b.receivers, t), senders := Erase(b.senders, t), pending := b.pending[t := ETIMEOUT])
  }

  /** rt_mb_control with RT_IPC_CMD_RESET */
  function Reset(b: Box): Box {
    b.(receivers := [], senders := [], inOffset := 0, outOffset := 0, entry := 0, sent := [], received := [],
       pending := Failed(Failed(b.pending, b.receivers), b.senders))
  }

  // ---------------------------------------------------------------- what always holds

  predicate IsWoken(calls: map<Tid, Call>, pending: map<Tid, Err>, sending: bool, t: Tid) {
    t in pending && pending[t] == EOK && t in calls && calls[t].Sending? == sending
  }

  ghost function Woken(calls: map<Tid, Call>, pending: map<Tid, Err>, sending: bool): set<Tid> {
    set t | t in pending && IsWoken(calls, pending, sending, t)
  }

  /** The receivers that a send has resumed and that have not run yet. */
  ghost function WokenReceivers(b: Box): set<Tid> {
    Woken(b.calls, b.pending, false)
  }

  /** The senders that a receive has resumed and that have not run yet. */
  ghost function WokenSenders(b: Box): set<Tid> {
    Woken(b.calls, b.pending, true)
  }

  ghost predicate Lists(b: Box) {
    && Distinct(b.receivers) && Distinct(b.senders)
    && (forall t :: t in b.receivers ==> t in b.calls && b.calls[t].Receiving? && t !in b.pending)
    && (forall t :: t in b.senders ==> t in b.calls && b.calls[t].Sending? && t !in b.pending)
    && (forall t :: t in b.calls ==> t in b.priority)
    && (forall t :: t in b.pending ==> t in b.calls)
  }

  /** While receivers wait, every mail in the box is spoken for by a woken receiver; while senders wait, every
      free place is spoken for by a woken sender. */
  ghost predicate NoLostWakeup(b: Box) {
    && (b.receivers != [] ==> b.entry <= |WokenReceivers(b)|)
    && (b.senders != [] ==> |b.pool| - b.entry <= |WokenSenders(b)|)
  }

  /** The mails received are the first of those sent; the rest are in the box. */
  ghost predicate InOrder(b: Box) {
    RingOk(b) && b.sent == b.received + Contents(b)
  }

  /** Both lists serve their waiters in the order they promise. */
  ghost predicate Fair(b: Box) {
    Ordered(b.flag, b.receivers, b.priority, b.since, b.clock) && Ordered(b.flag, b.senders, b.priority, b.since, b.clock)
  }

  ghost predicate Inv(b: Box) {
    Lists(b) && Fair(b) && NoLostWakeup(b) && InOrder(b)
  }

  // ---------------------------------------------------------------- every step keeps it

  lemma InvKnown(b: Box)
    requires Inv(b)
    ensures Known(b) && (b.entry != |b.pool| ==> b.inOffset < |b.pool|) && (b.entry != 0 ==> b.outOffset < |b.pool|)
  {
  }

  /** What a sending thread that is not in any list does: Inv but for the wakeup it may answer for. */
  ghost predicate InvBut(b: Box, recv: nat, send: nat) {
    && Lists(b) && Fair(b) && InOrder(b)
    && (b.receivers != [] ==> b.entry <= |WokenReceivers(b)| + recv)
    && (b.senders != [] ==> |b.pool| - b.entry <= |WokenSenders(b)| + send)
  }

  lemma SendKeeps(b: Box, t: Tid, v: Mail, timeout: int)
    requires InvBut(b, 0, 1) || Inv(b)
    requires Idle(b, t) && Known(b) && (b.entry != |b.pool| ==> b.inOffset < |b.pool|)
    ensures Inv(Send(b, t, v, timeout).0)
    ensures Send(b, t, v, timeout).1 == Done(EOK) ==> Send(b, t, v, timeout).0.sent == b.sent + [v]
  {
    if b.entry == |b.pool| {
      if timeout != 0 {
        WaitsAsSender(b, t, v, timeout);
      }
    } else {
      PutAtEnd(b, v);
      var b1 := Put(b, v);
      assert b1.sent == b1.received + Contents(b1);
      assert WokenReceivers(b1) == WokenReceivers(b) && WokenSenders(b1) == WokenSenders(b);
      WakeReceiverKeeps(b1);
    }
  }

  lemma WaitingSenderFair(b: Box, t: Tid, v: Mail, timeout: int)
    requires Lists(b) && Fair(b) && Idle(b, t) && Known(b)
    ensures Fair(WaitingSender(b, t, v, timeout))
  {
    hide Distinct, Ordered;
    assert t !in b.senders && t !in b.receivers;
    QueuedOrdered(b.flag, b.senders, b.priority, b.since, b.clock, t);
    LaterClock(b.flag, b.receivers, b.priority, b.since, b.clock, t);
  }

  lemma WaitingReceiverFair(b: Box, t: Tid, timeout: int)
    requires Lists(b) && Fair(b) && Idle(b, t) && Known(b)
    ensures Fair(WaitingReceiver(b, t, timeout))
  {
    hide Distinct, Ordered;
    assert t !in b.senders && t !in b.receivers;
    QueuedOrdered(b.flag, b.receivers, b.priority, b.since, b.clock, t);
    LaterClock(b.flag, b.senders, b.priority, b.since, b.clock, t);
  }

  lemma WaitsAsSender(b: Box, t: Tid, v: Mail, timeout: int)
    requires InvBut(b, 0, 1) || Inv(b)
    requires Idle(b, t) && Known(b) && b.entry == |b.pool|
    ensures Inv(WaitingSender(b, t, v, timeout))
  {
    var b' := WaitingSender(b, t, v, timeout);
    QueuedProps(b.flag, b.senders, b.priority, t);
    WaitingSenderFair(b, t, v, timeout);
    hide Queued, Distinct, Fair;
    WokenSame(b.calls, b.pending, b'.calls, b'.pending, true, t);
    WokenSame(b.calls, b.pending, b'.calls, b'.pending, false, t);
    hide Woken;
    assert Contents(b') == Contents(b);
  }

  /** One more woken thread counts for its kind only. */
  lemma WokenMore(calls: map<Tid, Call>, pending: map<Tid, Err>, sending: bool, t: Tid)
    requires t in calls && t !in pending
    ensures |Woken(calls, pending[t := EOK], sending)|
            == |Woken(calls, pending, sending)| + (if calls[t].Sending? == sending then 1 else 0)
  {
    var before, after := Woken(calls, pending, sending), Woken(calls, pending[t := EOK], sending);
    forall x ensures x in after <==> x in before || (x == t && calls[t].Sending? == sending) {
      assert x != t ==> (IsWoken(calls, pending[t := EOK], sending, x) <==> IsWoken(calls, pending, sending, x));
    }
    assert after == if calls[t].Sending? == sending then before + {t} else before;
  }

  /** A woken thread that leaves takes at most its own wakeup with it. */
  lemma WokenLess(calls: map<Tid, Call>, pending: map<Tid, Err>, sending: bool, t: Tid)
    ensures |Woken(calls, pending, sending)|
            == |Woken(calls - {t}, pending - {t}, sending)| + (if IsWoken(calls, pending, sending, t) then 1 else 0)
  {
    var before, after := Woken(calls, pending, sending), Woken(calls - {t}, pending - {t}, sending);
    forall x ensures x in before <==> x in after || (x == t && IsWoken(calls, pending, sending, t)) {
      assert x != t ==> (IsWoken(calls - {t}, pending - {t}, sending, x) <==> IsWoken(calls, pending, sending, x));
    }
    assert before == if IsWoken(calls, pending, sending, t) then after + {t} else after;
  }

  /** A thread that starts to wait, or is resumed with an error, is no woken thread. */
  lemma WokenSame(calls: map<Tid, Call>, pending: map<Tid, Err>, calls': map<Tid, Call>, pending': map<Tid, Err>, sending: bool, t: Tid)
    requires t !in pending && (t in pending' ==> pending'[t] != EOK)
    requires forall x :: x != t ==> (x in calls <==> x in calls') && (x in calls ==> calls'[x] == calls[x])
    requires forall x :: x != t ==> (x in pending <==> x in pending') && (x in pending ==> pending'[x] == pending[x])
    ensures Woken(calls', pending', sending) == Woken(calls, pending, sending)
  {
    forall x ensures x in Woken(calls', pending', sending) <==> x in Woken(calls, pending, sending) {
      assert IsWoken(calls', pending', sending, x) <==> IsWoken(calls, pending, sending, x);
    }
  }

  /** One more mail, and one waiting receiver woken for it. */
  lemma WakeReceiverKeeps(b: Box)
    requires Lists(b) && Fair(b) && InOrder(b) && (b.receivers != [] ==> b.entry <= |WokenReceivers(b)| + 1)
    requires b.senders != [] ==> |b.pool| - b.entry <= |WokenSenders(b)|
    ensures Inv(WakeReceiver(b))
  {
    if b.receivers != [] {
      Behead(b.receivers);
      TailOrdered(b.flag, b.receivers, b.priority, b.since, b.clock);
      hide Distinct, Ordered;
      WokenMore(b.calls, b.pending, true, b.receivers[0]);
      WokenMore(b.calls, b.pending, false, b.receivers[0]);
      hide Woken;
      assert Contents(WakeReceiver(b)) == Contents(b);
    }
  }

  lemma RecvKeeps(b: Box, t: Tid, timeout: int)
    requires InvBut(b, 1, 0) || Inv(b)
    requires Idle(b, t) && Known(b) && (b.entry != 0 ==> b.outOffset < |b.pool|)
    ensures Inv(Recv(b, t, timeout).0)
    ensures var (b', r) := Recv(b, t, timeout); r.Got? ==> b.sent == b'.sent && b'.received == b.received + [r.value]
  {
    if b.entry == 0 {
      if timeout != 0 {
        WaitsAsReceiver(b, t, timeout);
      }
    } else {
      GetAtFront(b);
      var b1 := Get(b).0;
      assert b1.sent == b1.received + Contents(b1);
      assert WokenReceivers(b1) == WokenReceivers(b) && WokenSenders(b1) == WokenSenders(b);
      WakeSenderKeeps(b1);
    }
  }

  lemma WaitsAsReceiver(b: Box, t: Tid, timeout: int)
    requires InvBut(b, 1, 0) || Inv(b)
    requires Idle(b, t) && Known(b) && b.entry == 0
    ensures Inv(WaitingReceiver(b, t, timeout))
  {
    var b' := WaitingReceiver(b, t, timeout);
    QueuedProps(b.flag, b.receivers, b.priority, t);
    WaitingReceiverFair(b, t, timeout);
    hide Queued, Distinct, Fair;
    WokenSame(b.calls, b.pending, b'.calls, b'.pending, true, t);
    WokenSame(b.calls, b.pending, b'.calls, b'.pending, false, t);
    hide Woken;
    assert Contents(b') == Contents(b);
  }

  /** One more free place, and one waiting sender woken for it. */
  lemma WakeSenderKeeps(b: Box)
    requires Lists(b) && Fair(b) && InOrder(b) && (b.senders != [] ==> |b.pool| - b.entry <= |WokenSenders(b)| + 1)
    requires b.receivers != [] ==> b.entry <= |WokenReceivers(b)|
    ensures Inv(WakeSender(b))
  {
    if b.senders != [] {
      Behead(b.senders);
      TailOrdered(b.flag, b.senders, b.priority, b.since, b.clock);
      hide Distinct, Ordered;
      WokenMore(b.calls, b.pending, true, b.senders[0]);
      WokenMore(b.calls, b.pending, false, b.senders[0]);
      hide Woken;
      assert Contents(WakeSender(b)) == Contents(b);
    }
  }

  /** A resumed thread leaves its call for a moment: it alone answers for its wakeup now. */
  lemma OffKeeps(b: Box, t: Tid)
    requires Inv(b) && t in b.pending
    ensures Idle(Off(b, t), t) && Known(Off(b, t)) && t in b.calls
    ensures b.pending[t] != EOK ==> Inv(Off(b, t))
    ensures b.pending[t] == EOK && b.calls[t].Sending? ==> InvBut(Off(b, t), 0, 1)
    ensures b.pending[t] == EOK && b.calls[t].Receiving? ==> InvBut(Off(b, t), 1, 0)
  {
    hide Distinct;
    var b1 := Off(b, t);
    assert Contents(b1) == Contents(b);
    WokenLess(b.calls, b.pending, true, t);
    WokenLess(b.calls, b.pending, false, t);
    hide Woken;
  }

  lemma ResumeKeeps(b: Box, t: Tid, elapsed: nat)
    requires Inv(b) && t in b.pending
    ensures t in b.calls && t in b.priority && Known(b) && (b.entry != |b.pool| ==> b.inOffset < |b.pool|)
            && (b.entry != 0 ==> b.outOffset < |b.pool|)
    ensures Inv(Resume(b, t, elapsed).0)
  {
    OffKeeps(b, t);
    InvKnown(b);
    hide Inv, InvBut, Send, Recv;
    if b.pending[t] == EOK {
      match b.calls[t]
      case Sending(v, timeout) => SendKeeps(Off(b, t), t, v, Left(timeout, elapsed));
      case Receiving(timeout) => RecvKeeps(Off(b, t), t, Left(timeout, elapsed));
    }
  }

  lemma TimeOutKeeps(b: Box, t: Tid)
    requires Inv(b) && (t in b.receivers || t in b.senders)
    ensures Inv(TimeOut(b, t)) && t in b.calls && t in b.priority
    ensures var b' := TimeOut(b, t);
            && Gone(b.receivers, b'.receivers, t) && Gone(b.senders, b'.senders, t) && b'.pending == b.pending[t := ETIMEOUT]
  {
    var b' := TimeOut(b, t);
    TimeOutLists(b, t);
    ErasedOrdered(b.flag, b.receivers, b.priority, b.since, b.clock, t);
    ErasedOrdered(b.flag, b.senders, b.priority, b.since, b.clock, t);
    WokenSame(b.calls, b.pending, b'.calls, b'.pending, true, t);
    WokenSame(b.calls, b.pending, b'.calls, b'.pending, false, t);
    hide Distinct, Lists, Woken, Ordered;
    EraseProps(b.receivers, t);
    EraseProps(b.senders, t);
    hide Erase;
    assert Contents(b') == Contents(b);
  }

  lemma TimeOutLists(b: Box, t: Tid)
    requires Lists(b) && (t in b.receivers || t in b.senders)
    ensures Lists(TimeOut(b, t)) && t !in b.pending
  {
    EraseProps(b.receivers, t);
    EraseProps(b.senders, t);
    if t in b.receivers {
      EraseDistinct(b.receivers, t);
    }
    if t in b.senders {
      EraseDistinct(b.senders, t);
    }
    hide Erase, Distinct;
  }

  /** A reset empties the box, and every waiting call fails. */
  lemma ResetKeeps(b: Box)
    requires Inv(b)
    ensures Inv(Reset(b)) && Contents(Reset(b)) == [] && Reset(b).receivers == [] && Reset(b).senders == []
    ensures forall t :: t in b.receivers || t in b.senders ==> t in Reset(b).pending && Reset(b).pending[t] == ERROR
    ensures forall t :: t in b.pending ==> t in Reset(b).pending && Reset(b).pending[t] == b.pending[t]
  {
  }

  // ---------------------------------------------------------------- what the callers see

  /** One more thread waits on the list for its kind of call, and nothing but its call is new. */
  ghost predicate StartsWaiting(b: Box, b': Box, t: Tid, call: Call) {
    && t in b'.calls && b'.calls == b.calls[t := call] && b'.pending == b.pending
    && b'.pool == b.pool && b'.entry == b.entry && b'.outOffset == b.outOffset && b'.sent == b.sent && b'.received == b.received
    && (if call.Sending? then t in b'.senders && Gone(b'.senders, b.senders, t) && b'.receivers == b.receivers
        else t in b'.receivers && Gone(b'.receivers, b.receivers, t) && b'.senders == b.senders)
  }

  /** Of the threads that wait on a list the one whose turn it is leaves it and will find RT_EOK; if none waits
      nothing happens. */
  ghost predicate Serves(b: Box, waiters: seq<Tid>, waiters': seq<Tid>, pending': map<Tid, Err>) {
    if waiters == [] then waiters' == [] && pending' == b.pending
    else exists u :: NextInTurn(b.flag, waiters, b.priority, b.since, u) && Gone(waiters, waiters', u) && pending' == b.pending[u := EOK]
  }

  lemma ServesHead(b: Box, waiters: seq<Tid>)
    requires Distinct(waiters) && Ordered(b.flag, waiters, b.priority, b.since, b.clock) && waiters != []
    ensures Serves(b, waiters, waiters[1..], b.pending[waiters[0] := EOK])
  {
    Behead(waiters);
    TailOrdered(b.flag, waiters, b.priority, b.since, b.clock);
    assert waiters == [waiters[0]] + waiters[1..];
    hide Distinct, Ordered, NextInTurn;
    assert Gone(waiters, waiters[1..], waiters[0]);
  }

  /** How a send ends: with RT_EOK if there is room, and then the mail is the last of the box and a waiting receiver,
      if any, is resumed; otherwise with -RT_EFULL if the caller will not wait, and else the caller waits. */
  lemma SendMeans(b: Box, t: Tid, v: Mail, timeout: int)
    requires (InvBut(b, 0, 1) || Inv(b)) && Idle(b, t)
    ensures Known(b) && (b.entry != |b.pool| ==> b.inOffset < |b.pool|)
    ensures RingOk(b) && RingOk(Send(b, t, v, timeout).0)
    ensures var (b', r) := Send(b, t, v, timeout);
            if |Contents(b)| < |b.pool| then
              && r == Done(EOK) && Contents(b') == Contents(b) + [v] && b'.sent == b.sent + [v]
              && b'.senders == b.senders && b'.calls == b.calls && Serves(b, b.receivers, b'.receivers, b'.pending)
            else if timeout == 0 then r == Done(EFULL) && b' == b
            else r == Waits && StartsWaiting(b, b', t, Sending(v, timeout))
  {
    if b.entry == |b.pool| {
      QueuedProps(b.flag, b.senders, b.priority, t);
      hide Queued, Distinct, Ordered, Woken, Contents;
    } else {
      PutAtEnd(b, v);
      if b.receivers != [] {
        ServesHead(b, b.receivers);
      }
      hide Distinct, Ordered, Woken, Serves;
      assert Contents(WakeReceiver(Put(b, v))) == Contents(Put(b, v));
    }
  }

  /** How a receive ends: with the first mail of the box if there is one, and then a waiting sender, if any, is
      resumed; otherwise with -RT_ETIMEOUT if the caller will not wait, and else the caller waits. */
  lemma RecvMeans(b: Box, t: Tid, timeout: int)
    requires (InvBut(b, 1, 0) || Inv(b)) && Idle(b, t)
    ensures Known(b) && (b.entry != 0 ==> b.outOffset < |b.pool|)
    ensures RingOk(b) && RingOk(Recv(b, t, timeout).0)
    ensures var (b', r) := Recv(b, t, timeout);
            if Contents(b) != [] then
              && r == Got(Contents(b)[0]) && Contents(b') == Contents(b)[1..] && b'.received == b.received + [Contents(b)[0]]
              && b'.receivers == b.receivers && b'.calls == b.calls && Serves(b, b.senders, b'.senders, b'.pending)
            else if timeout == 0 then r == Done(ETIMEOUT) && b' == b
            else r == Waits && StartsWaiting(b, b', t, Receiving(timeout))
  {
    if b.entry == 0 {
      QueuedProps(b.flag, b.receivers, b.priority, t);
      hide Queued, Distinct, Ordered, Woken;
    } else {
      GetAtFront(b);
      if b.senders != [] {
        ServesHead(b, b.senders);
      }
      hide Distinct, Ordered, Woken, Serves;
      assert Contents(WakeSender(Get(b).0)) == Contents(Get(b).0);
    }
  }

  /** What is left of a caller's patience: nothing of a time that has run out, all of one without end. */
  lemma LeftMeans(timeout: int, elapsed: nat)
    ensures timeout < 0 ==> Left(timeout, elapsed) == timeout
    ensures 0 <= timeout <= elapsed ==> Left(timeout, elapsed) == 0
    ensures timeout > elapsed ==> Left(timeout, elapsed) + elapsed == timeout
  {
  }

  /** A resumed thread returns the error it was resumed with, or tries again what it asked for, with the time that is
      left. */
  lemma ResumeMeans(b: Box, t: Tid, elapsed: nat)
    requires Inv(b) && t in b.pending
    ensures t in b.calls && t in b.priority && Known(b) && (b.entry != |b.pool| ==> b.inOffset < |b.pool|)
            && (b.entry != 0 ==> b.outOffset < |b.pool|)
    ensures var (b', r) := Resume(b, t, elapsed);
            var b1 := b.(calls := b.calls - {t}, pending := b.pending - {t});
            if b.pending[t] != EOK then r == Done(b.pending[t]) && b' == b1
            else if b.calls[t].Sending? then InvBut(b1, 0, 1) && (b', r) == Send(b1, t, b.calls[t].value, Left(b.calls[t].timeout, elapsed))
            else InvBut(b1, 1, 0) && (b', r) == Recv(b1, t, Left(b.calls[t].timeout, elapsed))
  {
    OffKeeps(b, t);
    InvKnown(b);
    hide Inv, InvBut, Send, Recv;
  }

  // ---------------------------------------------------------------- runs

  datatype Step = SendStep(t: Tid, value: Mail, timeout: int) | RecvStep(t: Tid, timeout: int)
                | ResumeStep(t: Tid, elapsed: nat) | TimeOutStep(t: Tid) | ResetStep

  ghost predicate Possible(b: Box, st: Step) {
    match st
    case SendStep(t, _, _) => Idle(b, t)
    case RecvStep(t, _) => Idle(b, t)
    case ResumeStep(t, _) => t in b.pending
    case TimeOutStep(t) => t in b.receivers || t in b.senders
    case ResetStep => true
  }

  ghost function Next(b: Box, st: Step): Box
    requires Inv(b) && Possible(b, st)
  {
    InvKnown(b);
    match st
    case SendStep(t, v, timeout) => Send(b, t, v, timeout).0
    case RecvStep(t, timeout) => Recv(b, t, timeout).0
    case ResumeStep(t, elapsed) => Resume(b, t, elapsed).0
    case TimeOutStep(t) => TimeOut(b, t)
    case ResetStep => Reset(b)
  }

  ghost predicate Run(b: Box, steps: seq<Step>, b': Box)
    decreases |steps|
  {
    if steps == [] then b' == b else Inv(b) && Possible(b, steps[0]) && Run(Next(b, steps[0]), steps[1..], b')
  }

  /** rt_mb_init */
  function Fresh(flag: Flag, size: nat, priority: map<Tid, nat>): Box {
    Box(flag, seq(size, _ => 0), 0, 0, 0, [], [], priority, map[], map[], [], [], map[], 0)
  }

  lemma FreshInv(flag: Flag, size: nat, priority: map<Tid, nat>)
    ensures Inv(Fresh(flag, size, priority))
  {
  }

  /** Over every interleaving of sends, receives, timeouts, resumptions and resets: no wakeup is lost, and what
      has been received since the last reset is a prefix of what has been sent. */
  lemma {:induction false} RunKeeps(b: Box, steps: seq<Step>, b': Box)
    requires Inv(b) && Run(b, steps, b')
    ensures Inv(b') && b'.received <= b'.sent
    decreases |steps|
  {
    hide Send, Recv, Resume, TimeOut, Reset, Lists, NoLostWakeup;
    if steps != [] {
      InvKnown(b);
      match steps[0] {
        case SendStep(t, v, timeout) => SendKeeps(b, t, v, timeout);
        case RecvStep(t, timeout) => RecvKeeps(b, t, timeout);
        case ResumeStep(t, elapsed) => ResumeKeeps(b, t, elapsed);
        case TimeOutStep(t) => TimeOutKeeps(b, t);
        case ResetStep => ResetKeeps(b);
      }
      RunKeeps(Next(b, steps[0]), steps[1..], b');
    }
  }

  /** Nobody waits in vain: when no resumed thread is still to run, receivers wait only for an empty box and
      senders only for a full one. */
  lemma Quiescent(b: Box)
    requires Inv(b) && b.pending == map[]
    ensures b.receivers != [] ==> b.entry == 0
    ensures b.senders != [] ==> b.entry == |b.pool|
  {
    assert WokenReceivers(b) == {} && WokenSenders(b) == {};
  }
}
