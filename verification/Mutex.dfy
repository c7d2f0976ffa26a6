/** The mutex object of src/ipc.c with the threads that use it, updated in place. */
module Mutex {
  import opened Basics
  import opened MutexModel
  import opened WaitList

  class MutexObject {
    const flag: Flag
    var value: nat
    var hold: nat
    var owner: Option<Tid>
    var originalPriority: nat
    /** parent.suspend_thread */
    var suspended: seq<Tid>
    /** current_priority of the threads, and error of those resumed inside rt_mutex_take */
    var currentPriority: map<Tid, nat>
    var error: map<Tid, Err>
    ghost const base: map<Tid, nat>
    ghost var since: map<Tid, nat>
    ghost var clock: nat

    ghost function Abs(): State
      reads this
    {
      State(flag, value, hold, owner, originalPriority, suspended, currentPriority, error, since, clock)
    }

    ghost predicate Valid()
      reads this
    {
      Inv(Abs(), base)
    }

    /** rt_mutex_init */
    constructor (flag: Flag, priorities: map<Tid, nat>)
      ensures Valid() && base == priorities && Abs() == Fresh(flag, priorities)
    {
      this.flag := flag;
      value, hold, owner, originalPriority := 1, 0, None, 0xff;
      suspended, currentPriority, error := [], priorities, map[];
      base, since, clock := priorities, map[], 0;
    }

    /** rt_mutex_take by a running thread, up to its return or the schedule; None: the thread waits.  The hold
        count is a byte, so the caller must not nest deeper. */
    method Take(thread: Tid, time: int) returns (result: Option<Err>)
      requires Valid() && Runs(Abs(), thread) && (owner == Some(thread) ==> hold < 255)
      modifies this
      ensures Valid() && (Abs(), result) == MutexModel.Take(old(Abs()), thread, time)
      ensures result == Some(EOK) ==> owner == Some(thread)
      ensures result.None? ==> thread in suspended
    {
      hide Inv, Queued;
      TakeKeeps(Abs(), base, thread, time);
      TakeReady(Abs(), base);
      if owner == Some(thread) {
        hold := hold + 1;
        return Some(EOK);
      }
      if value > 0 {
        value := value - 1;
        owner := Some(thread);
        originalPriority := currentPriority[thread];
        hold := hold + 1;
        return Some(EOK);
      }
      if time == 0 {
        return Some(ETIMEOUT);
      }
      if currentPriority[thread] < currentPriority[owner.value] {
        currentPriority := currentPriority[owner.value := currentPriority[thread]];
      }
      assert Abs() == Inherit(old(Abs()), thread);
      SuspendedIn(Abs(), thread);
      suspended := ListSuspend(flag, suspended, currentPriority, thread);
      since := since[thread := clock];
      clock := clock + 1;
      result := None;
    }

    static lemma TakeReady(s: State, base: map<Tid, nat>)
      requires Inv(s, base)
      ensures (s.value == 0 ==> s.owner.Some? && s.owner.value in s.priority) && forall w :: w in s.waiters ==> w in s.priority
    {
    }

    static lemma SuspendedIn(s: State, t: Tid)
      requires t in s.priority && forall w :: w in s.waiters ==> w in s.priority
      ensures t in Suspend(s, t).waiters
    {
      var i := if s.flag == FIFO then |s.waiters| else PrioPlace(s.waiters, s.priority, s.priority[t]);
      InsertMembers(s.waiters, i, t, t);
    }

    /** rt_thread_timeout of a thread waiting for the mutex */
    method ThreadTimeout(thread: Tid)
      requires Valid() && thread in suspended
      modifies this
      ensures Valid() && Abs() == Timeout(old(Abs()), thread)
    {
      hide Inv;
      TimeoutKeeps(Abs(), base, thread);
      error := error[thread := ETIMEOUT];
      suspended := Erase(suspended, thread);
    }

    /** rt_mutex_take after the schedule: a thread that is told it has the mutex does own it. */
    method TakeReturns(thread: Tid) returns (result: Err)
      requires Valid() && thread in error
      modifies this
      ensures Valid() && (Abs(), result) == Return(old(Abs()), thread)
      ensures result == EOK ==> owner == Some(thread) && hold == 1
    {
      hide Inv;
      ReturnKeeps(Abs(), base, thread);
      result := error[thread];
      error := error - {thread};
    }

    /** rt_mutex_release by a running thread.  The last release of a holder gives it back the priority it had
        when it took the mutex. */
    method Release(thread: Tid) returns (result: Err)
      requires Valid() && Runs(Abs(), thread)
      modifies `value, `hold, `owner, `originalPriority, `suspended, `currentPriority, `error
      ensures Valid()
      ensures old(owner) == Some(thread) ==> old(hold) > 0
      ensures result == (if old(owner) == Some(thread) then EOK else ERROR)
      ensures (forall w :: w in old(suspended) ==> w in old(currentPriority)) &&
              (Abs(), result) == MutexModel.Release(old(Abs()), thread)
      ensures old(owner) == Some(thread) && old(hold) == 1 ==> currentPriority[thread] == base[thread]
    {
      hide Inv;
      ghost var s := Abs();
      ReleaseReady(s, base);
      ReleaseKeeps(s, base, thread);
      if owner != Some(thread) {
        return ERROR;
      }
      hold := hold - 1;
      if hold == 0 {
        if originalPriority != currentPriority[owner.value] {
          currentPriority := currentPriority[owner.value := originalPriority];
        }
        assert currentPriority == s.priority[thread := s.original];
        if suspended != [] {
          var next := suspended[0];
          assert next in s.waiters;
          owner := Some(next);
          originalPriority := currentPriority[next];
          hold := hold + 1;
          suspended := suspended[1..];
          error := error[next := EOK];
        } else {
          value := value + 1;
          owner := None;
          originalPriority := 0xff;
        }
      }
      result := EOK;
    }

    static lemma ReleaseReady(s: State, base: map<Tid, nat>)
      requires Inv(s, base)
      ensures (s.owner.Some? ==> s.hold > 0 && s.owner.value in s.priority) && forall w :: w in s.waiters ==> w in s.priority
    {
    }
  }
}
