/** The mailbox object of src/ipc.c, updated in place. */
module Mailbox {
  import opened Basics
  import opened WaitList
  import opened MailboxModel

  class MailboxObject {
    const flag: Flag
    const msgPool: array<Mail>
    var inOffset: nat
    var outOffset: nat
    var entry: nat
    /** parent.suspend_thread and suspend_sender_thread */
    var suspendThread: seq<Tid>
    var suspendSender: seq<Tid>
    var currentPriority: map<Tid, nat>
    /** The stack frames of the threads inside a call, and the error codes of those resumed. */
    var calls: map<Tid, Call>
    var error: map<Tid, Err>
    ghost var sent: seq<Mail>
    ghost var received: seq<Mail>
    ghost var since: map<Tid, nat>
    ghost var clock: nat

    ghost function Abs(): Box
      reads this, msgPool
    {
      Box(flag, msgPool[..], inOffset, outOffset, entry, suspendThread, suspendSender, currentPriority, calls, error, sent, received,
          since, clock)
    }

    ghost predicate Valid()
      reads this, msgPool
    {
      Inv(Abs())
    }

    /** rt_mb_init */
    constructor (flag: Flag, size: nat, priorities: map<Tid, nat>)
      ensures Valid() && fresh(msgPool) && Abs() == Fresh(flag, size, priorities)
    {
      this.flag := flag;
      msgPool := new Mail[size](_ => 0);
      inOffset, outOffset, entry := 0, 0, 0;
      suspendThread, suspendSender, currentPriority := [], [], priorities;
      calls, error, sent, received := map[], map[], [], [];
      since, clock := map[], 0;
      new;
      FreshInv(flag, size, priorities);
      assert msgPool[..] == seq(size, _ => 0);
    }

    /** Linking a mail and waking a receiver for it. */
    method Store(value: Mail)
      requires entry < msgPool.Length && inOffset < msgPool.Length
      modifies `inOffset, `entry, `sent, `suspendThread, `error, msgPool
      ensures Abs() == WakeReceiver(Put(old(Abs()), value))
    {
      ghost var b := Abs();
      msgPool[inOffset] := value;
      inOffset := inOffset + 1;
      if inOffset >= msgPool.Length {
        inOffset := 0;
      }
      entry := entry + 1;
      sent := sent + [value];
      assert Abs() == Put(b, value);
      ResumeReceiver();
    }

    /** rt_ipc_list_resume of the receivers, if any waits */
    method ResumeReceiver()
      modifies `suspendThread, `error
      ensures Abs() == WakeReceiver(old(Abs()))
    {
      if suspendThread != [] {
        error := error[suspendThread[0] := EOK];
        suspendThread := suspendThread[1..];
      }
    }

    /** Taking a mail and waking a sender for its place. */
    method Fetch() returns (value: Mail)
      requires 0 < entry && outOffset < msgPool.Length
      modifies `outOffset, `entry, `received, `suspendSender, `error
      ensures (Abs(), value) == (WakeSender(Get(old(Abs())).0), Get(old(Abs())).1)
    {
      ghost var b := Abs();
      value := msgPool[outOffset];
      outOffset := outOffset + 1;
      if outOffset >= msgPool.Length {
        outOffset := 0;
      }
      entry := entry - 1;
      received := received + [value];
      assert Abs() == Get(b).0;
      ResumeSender();
    }

    /** rt_ipc_list_resume of the senders, if any waits */
    method ResumeSender()
      modifies `suspendSender, `error
      ensures Abs() == WakeSender(old(Abs()))
    {
      if suspendSender != [] {
        error := error[suspendSender[0] := EOK];
        suspendSender := suspendSender[1..];
      }
    }

    /** rt_mb_send_wait up to its return or the schedule. */
    method SendWait(thread: Tid, value: Mail, timeout: int) returns (r: Outcome)
      requires Valid() && Idle(Abs(), thread)
      modifies this, msgPool
      ensures Valid() && Known(old(Abs())) && (old(entry) != msgPool.Length ==> old(inOffset) < msgPool.Length)
      ensures (Abs(), r) == Send(old(Abs()), thread, value, timeout)
      ensures r == Done(EOK) ==> sent == old(sent) + [value]
    {
      hide Inv, Queued, Contents;
      InvKnown(Abs());
      SendKeeps(Abs(), thread, value, timeout);
      EntryBound(Abs());
      r := SendLoop(thread, value, timeout);
    }

    /** The loop of rt_mb_send_wait, from its test on. */
    method SendLoop(thread: Tid, value: Mail, timeout: int) returns (r: Outcome)
      requires thread in currentPriority && Known(Abs()) && entry <= msgPool.Length
      requires entry != msgPool.Length ==> inOffset < msgPool.Length
      modifies this, msgPool
      ensures (Abs(), r) == Send(old(Abs()), thread, value, timeout)
    {
      hide Queued;
      if entry == msgPool.Length {
        if timeout == 0 {
          return Done(EFULL);
        }
        suspendSender := ListSuspend(flag, suspendSender, currentPriority, thread);
        calls := calls[thread := Sending(value, timeout)];
        since := since[thread := clock];
        clock := clock + 1;
        return Waits;
      }
      Store(value);
      r := Done(EOK);
    }

    /** rt_mb_recv up to its return or the schedule. */
    method Recv(thread: Tid, timeout: int) returns (r: Outcome)
      requires Valid() && Idle(Abs(), thread)
      modifies this, msgPool
      ensures Valid() && Known(old(Abs())) && (old(entry) != 0 ==> old(outOffset) < msgPool.Length)
      ensures (Abs(), r) == MailboxModel.Recv(old(Abs()), thread, timeout)
      ensures r.Got? ==> sent == old(sent) && received == old(received) + [r.value]
    {
      hide Inv, Queued, Contents;
      InvKnown(Abs());
      RecvKeeps(Abs(), thread, timeout);
      r := RecvLoop(thread, timeout);
    }

    /** The loop of rt_mb_recv, from its test on. */
    method RecvLoop(thread: Tid, timeout: int) returns (r: Outcome)
      requires thread in currentPriority && Known(Abs()) && (entry != 0 ==> outOffset < msgPool.Length)
      modifies this, msgPool
      ensures (Abs(), r) == MailboxModel.Recv(old(Abs()), thread, timeout)
    {
      hide Queued;
      if entry == 0 {
        if timeout == 0 {
          return Done(ETIMEOUT);
        }
        suspendThread := ListSuspend(flag, suspendThread, currentPriority, thread);
        calls := calls[thread := Receiving(timeout)];
        since := since[thread := clock];
        clock := clock + 1;
        return Waits;
      }
      var value := Fetch();
      r := Got(value);
    }

    static lemma EntryBound(b: Box)
      requires Inv(b)
      ensures b.entry <= |b.pool|
    {
    }

    /** A resumed thread goes on behind rt_schedule, `elapsed` ticks after it was suspended. */
    method Continue(thread: Tid, elapsed: nat) returns (r: Outcome)
      requires Valid() && thread in error
      modifies this, msgPool
      ensures Valid() && thread in old(calls) && thread in old(currentPriority) && Known(old(Abs()))
      ensures (old(entry) != msgPool.Length ==> old(inOffset) < msgPool.Length) && (old(entry) != 0 ==> old(outOffset) < msgPool.Length)
      ensures (Abs(), r) == Resume(old(Abs()), thread, elapsed)
    {
      hide Inv, Send, MailboxModel.Recv;
      ghost var b := Abs();
      ResumeKeeps(b, thread, elapsed);
      EntryBound(b);
      var call := calls[thread];
      var code := error[thread];
      calls := calls - {thread};
      error := error - {thread};
      assert Abs() == Off(b, thread);
      if code != EOK {
        return Done(code);
      }
      var timeout := call.timeout;
      if timeout > 0 {
        timeout := timeout - elapsed;
        if timeout < 0 {
          timeout := 0;
        }
      }
      match call {
        case Sending(v, _) => r := SendLoop(thread, v, timeout);
        case Receiving(_) => r := RecvLoop(thread, timeout);
      }
    }

    /** rt_thread_timeout of a thread waiting for the mailbox */
    method ThreadTimeout(thread: Tid)
      requires Valid() && (thread in suspendThread || thread in suspendSender)
      modifies this
      ensures Valid() && Abs() == TimeOut(old(Abs()), thread)
    {
      hide Inv;
      TimeOutKeeps(Abs(), thread);
      error := error[thread := ETIMEOUT];
      suspendThread := Erase(suspendThread, thread);
      suspendSender := Erase(suspendSender, thread);
    }

    /** rt_mb_control with RT_IPC_CMD_RESET: all waiters are resumed with an error, the box is empty. */
    method ControlReset()
      requires Valid()
      modifies `inOffset, `outOffset, `entry, `sent, `received, `suspendThread, `suspendSender, `error
      ensures Valid() && Abs() == Reset(old(Abs()))
    {
      hide Inv;
      ghost var b := Abs();
      ResetKeeps(b);
      error := ListResumeAll(suspendThread, error);
      suspendThread := [];
      error := ListResumeAll(suspendSender, error);
      suspendSender := [];
      entry, inOffset, outOffset := 0, 0, 0;
      sent, received := [], [];
    }
  }
}
