/** The event object of src/ipc.c, whose send takes threads off the list while it walks along it. */
module EventObjects {
  import opened Basics
  import opened IntrusiveList
  import opened Bitmap
  import opened WaitList
  import opened SuspendLists
  import opened EventModel

  /** Of a list some of whose first i threads have been taken off, the next one taken off */
  lemma SkipOne(left: seq<Tid>, all: seq<Tid>, i: nat)
    requires i < |all|
    ensures var l := left + all[i..];
            && |left| < |l| == |left| + |all| - i && l[|left|] == all[i]
            && (i + 1 < |all| ==> l[|left| + 1] == all[i + 1])
            && RemoveAt(l, |left|) == left + all[i + 1..] && l == (left + [all[i]]) + all[i + 1..]
  {
    assert all[i..] == [all[i]] + all[i + 1..];
  }

  class EventObject {
    const flag: Flag
    const list: SuspendList
    /** `set` of the object */
    var events: Word
    var currentPriority: map<Tid, nat>
    /** event_set and event_info of the threads inside rt_event_recv, and the error codes of those resumed */
    var infos: map<Tid, Info>
    var error: map<Tid, Err>
    ghost var since: map<Tid, nat>
    ghost var clock: nat

    ghost function Abs(): Event
      reads this, list
    {
      Event(flag, events, list.waiters, currentPriority, infos, error, since, clock)
    }

    ghost predicate Valid()
      reads this, list, list.mem
    {
      list.Valid() && Inv(Abs())
    }

    /** rt_event_init */
    constructor (flag: Flag, priorities: map<Tid, nat>)
      ensures Valid() && fresh(list) && fresh(list.mem) && Abs() == Fresh(flag, priorities)
    {
      this.flag := flag;
      list := new SuspendList();
      events, currentPriority, infos, error := 0, priorities, map[], map[];
      since, clock := map[], 0;
    }

    /** The test for one suspended thread; an OR thread's bits are recorded. */
    method Test(thread: Tid) returns (ok: bool)
      requires thread in infos
      modifies `infos
      ensures ok <==> Satisfied(old(infos)[thread], events)
      ensures infos == if ok then old(infos)[thread := old(infos)[thread].(eventSet := Received(old(infos)[thread], events))]
                       else old(infos)
    {
      hide And;
      ok := false;
      var info := infos[thread];
      if info.all {
        if And(info.eventSet, events) == info.eventSet {
          ok := true;
          assert infos == infos[thread := info];
        }
      } else if info.any {
        if And(info.eventSet, events) != 0 {
          infos := infos[thread := info.(eventSet := And(info.eventSet, events))];
          ok := true;
        }
      }
    }

    /** One thread of the walk: it is taken off the list if its condition is met.  `n` has moved on to the
        next node by then. */
    method Visit(n: ListNode, ghost at: nat) returns (next: ListNode, ghost ok: bool)
      requires list.Valid() && at < |list.waiters| && n == Node(list.waiters[at]) && n.thread in infos
      modifies `infos, `events, `error, list, list.mem
      ensures ok == Satisfied(old(infos)[n.thread], old(events))
      ensures var r := Examine(Walk([], [], old(infos), old(events)), n.thread); infos == r.infos && events == r.events
      ensures list.Valid() && list.waiters == if ok then RemoveAt(old(list.waiters), at) else old(list.waiters)
      ensures error == if ok then old(error)[n.thread := EOK] else old(error)
      ensures next == if at + 1 < |old(list.waiters)| then Node(old(list.waiters)[at + 1]) else Head
    {
      hide And, AndNot, Satisfied, Received, Ring, RemoveAt;
      var thread := n.thread;
      var status := Test(thread);
      ok := status;
      next := list.After(n, at + 1);
      if status {
        if infos[thread].clear {
          events := AndNot(events, infos[thread].eventSet);
        }
        list.Remove(thread, at);
        error := error[thread := EOK];
      }
    }

    /** The walk is before thread i of those suspended when it began. */
    ghost predicate Walking(all: seq<Tid>, before: map<Tid, Info>, bits: Word, pending: map<Tid, Err>, i: nat)
      requires i <= |all| && forall t :: t in all ==> t in before
      reads `infos, `events, `error, list
    {
      var r := Scan(all[..i], before, bits);
      && list.waiters == r.left + all[i..]
      && infos == r.infos && events == r.events && error == Resumed(pending, r.woken)
    }

    /** What one more thread adds to the walk */
    static lemma WalkStep(all: seq<Tid>, before: map<Tid, Info>, bits: Word, i: nat)
      requires i < |all| && forall t :: t in all ==> t in before
      ensures var r := Scan(all[..i], before, bits);
              && all[i] in r.infos && Scan(all[..i + 1], before, bits) == Examine(r, all[i])
              && Examine(r, all[i]).left == (if Satisfied(r.infos[all[i]], r.events) then r.left else r.left + [all[i]])
              && Examine(r, all[i]).woken == (if Satisfied(r.infos[all[i]], r.events) then r.woken + [all[i]] else r.woken)
              && var one := Examine(Walk([], [], r.infos, r.events), all[i]);
              Examine(r, all[i]).infos == one.infos && Examine(r, all[i]).events == one.events
    {
      hide And, AndNot, Satisfied, Received;
      assert all[..i + 1][..i] == all[..i] && all[i] in all;
    }

    static lemma ResumeOneMore(pending: map<Tid, Err>, woken: seq<Tid>, t: Tid)
      ensures Resumed(pending, woken + [t]) == Resumed(pending, woken)[t := EOK]
    {
    }

    /** rt_event_send */
    method Send(bits: Word) returns (r: Err)
      requires Valid()
      modifies `events, `infos, `error, list, list.mem
      ensures Valid() && (Abs(), r) == EventModel.Send(old(Abs()), bits)
    {
      hide Inv, And, Or, AndNot, Scan, Ring, NoneSatisfied;
      ghost var e := Abs();
      WaitersKnown(e);
      SendKeeps(e, bits);
      if bits == 0 {
        return ERROR;
      }
      events := Or(events, bits);
      WalkList(Or(e.events, bits));
      r := EOK;
    }

    static lemma WaitersKnown(e: Event)
      requires Inv(e)
      ensures forall t :: t in e.waiters ==> t in e.infos && t in e.priority
    {
    }

    /** The loop of rt_event_send */
    method WalkList(ghost bits: Word)
      requires list.Valid() && events == bits && forall t :: t in list.waiters ==> t in infos
      modifies `infos, `events, `error, list, list.mem
      ensures list.Valid()
      ensures var r := Scan(old(list.waiters), old(infos), bits);
              list.waiters == r.left && infos == r.infos && events == r.events && error == Resumed(old(error), r.woken)
    {
      hide Ring, Examine, Satisfied, Resumed, RemoveAt;
      ghost var all, before, pending, i := list.waiters, infos, error, 0;
      var n := list.After(Head, 0);
      NoneResumed(error);
      while n != Head
        invariant i <= |all| && n == if i < |all| then Node(all[i]) else Head
        invariant list.Valid() && Walking(all, before, bits, pending, i)
        decreases |all| - i
      {
        ghost var r := Scan(all[..i], before, bits);
        SkipOne(r.left, all, i);
        WalkStep(all, before, bits, i);
        ResumeOneMore(pending, r.woken, all[i]);
        hide Scan;
        ghost var ok;
        n, ok := Visit(n, |r.left|);
        i := i + 1;
      }
      assert all[..i] == all;
    }

    static lemma NoneResumed(pending: map<Tid, Err>)
      ensures Resumed(pending, []) == pending
    {
    }

    /** rt_event_recv up to its return or the schedule */
    method Recv(thread: Tid, eventSet: Word, all: bool, any: bool, clear: bool, timeout: int) returns (r: Outcome)
      requires Valid() && Idle(Abs(), thread) && (all || any)
      modifies this, list, list.mem
      ensures Valid() && forall u :: u in old(list.waiters) ==> u in old(currentPriority)
      ensures (Abs(), r) == EventModel.Recv(old(Abs()), thread, Info(eventSet, all, any, clear), timeout)
    {
      hide Inv, AndNot, Ring, Queued, And;
      ghost var e := Abs();
      var want := Info(eventSet, all, any, clear);
      WaitersKnown(e);
      RecvKeeps(e, thread, want, timeout);
      if eventSet == 0 {
        return Done(ERROR);
      }
      var ok := false;
      if all {
        ok := And(eventSet, events) == eventSet;
      } else if any {
        ok := And(eventSet, events) != 0;
      }
      assert ok == Satisfied(want, events);
      hide Satisfied;
      if ok {
        r := Got(And(events, eventSet));
        if clear {
          events := AndNot(events, eventSet);
        }
      } else if timeout == 0 {
        r := Done(ETIMEOUT);
      } else {
        NotWaiting(e, thread);
        infos := infos[thread := want];
        list.Suspend(flag, currentPriority, thread);
        since := since[thread := clock];
        clock := clock + 1;
        r := Waits;
      }
    }

    static lemma NotWaiting(e: Event, t: Tid)
      requires Inv(e) && Idle(e, t)
      ensures t !in e.waiters
    {
    }

    /** A resumed thread goes on behind rt_schedule in rt_event_recv. */
    method Continue(thread: Tid) returns (r: Outcome)
      requires Valid() && thread in error
      modifies `infos, `error
      ensures Valid() && thread in old(infos) && (Abs(), r) == Return(old(Abs()), thread)
    {
      hide Inv;
      ReturnKeeps(Abs(), thread);
      var code := error[thread];
      error := error - {thread};
      r := if code != EOK then Done(code) else Got(infos[thread].eventSet);
      infos := infos - {thread};
    }

    /** rt_thread_timeout of a waiting thread */
    method ThreadTimeout(thread: Tid)
      requires Valid() && thread in list.waiters
      modifies `error, list, list.mem
      ensures Valid() && Abs() == TimeOut(old(Abs()), thread)
    {
      hide Ring, RemoveAt, Erase, Satisfied;
      TimeOutKeeps(Abs(), thread);
      ghost var i :| 0 <= i < |list.waiters| && list.waiters[i] == thread;
      EraseAt(list.waiters, i);
      hide Inv;
      error := error[thread := ETIMEOUT];
      list.Remove(thread, i);
    }

    /** rt_event_control with RT_IPC_CMD_RESET */
    method ControlReset()
      requires Valid()
      modifies `events, `error, list, list.mem
      ensures Valid() && Abs() == Reset(old(Abs()))
    {
      hide Inv, Ring;
      ResetKeeps(Abs());
      error := list.ResumeAll(error);
      events := 0;
    }
  }
}
