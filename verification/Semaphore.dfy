/** A counting semaphore of src/ipc.c: takes, releases, timeouts and resets as atomic steps, and what holds
    after any interleaving of them. */
module SemaphoreModel {
  import opened Basics
  import opened WaitList

  /** `waiters` are the suspended threads, `pending` the error codes of threads that have been resumed inside
      rt_sem_take and have not returned from it.  For the statements only: `supply` counts what was put into
      the semaphore, `taken` the takes that have returned with success,
      and `since` numbers the waiters in the order they came. */
  datatype State = State(
    flag: Flag, value: nat, waiters: seq<Tid>, priority: map<Tid, nat>, pending: map<Tid, Err>, supply: int, taken: nat,
    since: map<Tid, nat>, clock: nat)

  predicate Runs(s: State, t: Tid) {
    t in s.priority && t !in s.waiters && t !in s.pending
  }

  /** rt_sem_take up to its return or the schedule; None: the thread waits. */
  function Take(s: State, t: Tid, time: int): (State, Option<Err>)
    requires t in s.priority && forall w :: w in s.waiters ==> w in s.priority
  {
    if s.value > 0 then (s.(value := s.value - 1, taken := s.taken + 1), Some(EOK))
    else if time == 0 then (s, Some(ETIMEOUT))
    else (s.(waiters := Queued(s.flag, s.waiters, s.priority, t), since := s.since[t := s.clock], clock := s.clock + 1), None)
  }

  /** The rest of rt_sem_take, once the thread runs again */
  function Return(s: State, t: Tid): (State, Err)
    requires t in s.pending
  {
    (s.(pending := s.pending - {t}, taken := if s.pending[t] == EOK then s.taken + 1 else s.taken), s.pending[t])
  }

  /** rt_sem_release */
  function Release(s: State): State {
    if s.waiters != [] then
      s.(waiters := s.waiters[1..], pending := s.pending[s.waiters[0] := EOK], supply := s.supply + 1)
    else s.(value := s.value + 1, supply := s.supply + 1)
  }

  /** rt_thread_timeout of a waiting thread */
  function TimeOut(s: State, t: Tid): State {
    s.(waiters := Erase(s.waiters, t), pending := s.pending[t := ETIMEOUT])
  }

  /** rt_sem_control with RT_IPC_CMD_RESET; the value is cut to 16 bits, and what was in the
      semaphore no longer counts as supplied. */
  function Reset(s: State, value: nat): State {
    s.(waiters := [], pending := Failed(s.pending, s.waiters), value := value % 0x1_0000,
       supply := s.supply - s.value + value % 0x1_0000)
  }

  /** The list is in order, nobody waits for a semaphore that has units, and every unit supplied is still there,
      has been taken, or has been handed to a woken thread. */
  ghost predicate Inv(s: State) {
    && Distinct(s.waiters)
    && (forall w :: w in s.waiters ==> w in s.priority && w !in s.pending)
    && (s.flag == PRIO ==> Sorted(s.waiters, s.priority))
    && Stamped(s.waiters, s.since, s.clock) && InTurn(s.flag, s.waiters, s.priority, s.since)
    && (s.waiters != [] ==> s.value == 0)
    && s.supply == s.value + s.taken + |Woken(s.pending)|
  }

  /** A take succeeds at once exactly when there are units, and then there is one less; without units it returns
      -RT_ETIMEOUT, and nothing has changed, if the caller will not wait, and else the caller waits. */
  lemma TakeKeeps(s: State, t: Tid, time: int)
    requires Inv(s) && Runs(s, t)
    ensures Inv(Take(s, t, time).0)
    ensures var (s', r) := Take(s, t, time);
            if s.value > 0 then r == Some(EOK) && s'.value == s.value - 1 && s'.waiters == s.waiters
            else if time == 0 then r == Some(ETIMEOUT) && s' == s
            else r == None && s'.value == 0 && t in s'.waiters && Gone(s'.waiters, s.waiters, t)
  {
    if s.value == 0 && time != 0 {
      QueuedProps(s.flag, s.waiters, s.priority, t);
      QueuedInTurn(s.flag, s.waiters, s.priority, s.since, s.clock, t);
      hide Queued, Distinct, Sorted, Woken, Stamped, InTurn;
    }
  }

  lemma ReturnKeeps(s: State, t: Tid)
    requires Inv(s) && t in s.pending
    ensures Inv(Return(s, t).0)
  {
    WokenLess(s.pending, t);
    hide Distinct, Sorted, Woken;
  }

  /** A release hands its unit to the waiter whose turn it is, or adds it to the value if nobody waits. */
  lemma ReleaseKeeps(s: State)
    requires Inv(s)
    ensures Inv(Release(s))
    ensures var s' := Release(s);
            if s.waiters == [] then s'.value == s.value + 1 && s'.waiters == [] && s'.pending == s.pending
            else s'.value == 0 && exists u ::
              && NextInTurn(s.flag, s.waiters, s.priority, s.since, u)
              && Gone(s.waiters, s'.waiters, u) && s'.pending == s.pending[u := EOK]
  {
    if s.waiters != [] {
      var l := s.waiters;
      Behead(l);
      HeadIsNext(s.flag, l, s.priority, s.since);
      assert l[0] in l;
      WokenMore(s.pending, l[0]);
      assert forall j :: 0 <= j < |l| - 1 ==> l[1..][j] == l[j + 1];
      assert s.flag == PRIO ==> Sorted(l[1..], s.priority);
      TailInTurn(s.flag, l, s.priority, s.priority, s.since, s.clock);
      hide Distinct, Sorted, Woken, Stamped, InTurn, NextInTurn;
      assert l == [l[0]] + l[1..];
      assert Gone(l, Release(s).waiters, l[0]);
    }
  }

  lemma TimeOutKeeps(s: State, t: Tid)
    requires Inv(s) && t in s.waiters
    ensures Inv(TimeOut(s, t))
    ensures Gone(s.waiters, TimeOut(s, t).waiters, t) && Return(TimeOut(s, t), t).1 == ETIMEOUT
  {
    EraseProps(s.waiters, t);
    EraseDistinct(s.waiters, t);
    ErasedInTurn(s.flag, s.waiters, s.priority, s.since, s.clock, t);
    if s.flag == PRIO {
      EraseSorted(s.waiters, s.priority, t);
    }
    hide Erase, Distinct, Sorted, Stamped, InTurn;
    assert Woken(s.pending[t := ETIMEOUT]) == Woken(s.pending);
  }

  /** A reset sets the value, as far as 16 bits hold it, and every waiting take fails. */
  lemma ResetKeeps(s: State, value: nat)
    requires Inv(s)
    ensures Inv(Reset(s, value)) && Reset(s, value).waiters == []
    ensures 0 <= Reset(s, value).value < 0x1_0000 && exists k: nat :: value == Reset(s, value).value + k * 0x1_0000
    ensures forall t :: t in s.waiters ==> t in Reset(s, value).pending && Return(Reset(s, value), t).1 == ERROR
    ensures forall t :: t in s.pending ==> t in Reset(s, value).pending && Reset(s, value).pending[t] == s.pending[t]
  {
    assert value == value % 0x1_0000 + (value / 0x1_0000) * 0x1_0000;
    WokenFailed(s.pending, s.waiters);
    hide Woken;
  }

  datatype Step = TakeStep(t: Tid, time: int) | ReturnStep(t: Tid) | ReleaseStep | TimeOutStep(t: Tid) | ResetStep(value: nat)

  ghost predicate Possible(s: State, st: Step) {
    match st
    case TakeStep(t, _) => Runs(s, t)
    case ReturnStep(t) => t in s.pending
    case TimeOutStep(t) => t in s.waiters
    case _ => true
  }

  ghost function Next(s: State, st: Step): State
    requires Inv(s) && Possible(s, st)
  {
    match st
    case TakeStep(t, time) => Take(s, t, time).0
    case ReturnStep(t) => Return(s, t).0
    case ReleaseStep => Release(s)
    case TimeOutStep(t) => TimeOut(s, t)
    case ResetStep(value) => Reset(s, value)
  }

  ghost predicate Run(s: State, steps: seq<Step>, s': State)
    decreases |steps|
  {
    if steps == [] then s' == s else Inv(s) && Possible(s, steps[0]) && Run(Next(s, steps[0]), steps[1..], s')
  }

  /** rt_sem_init */
  function Fresh(flag: Flag, value: nat, priority: map<Tid, nat>): State {
    State(flag, value, [], priority, map[], value, 0, map[], 0)
  }

  /** The units supplied over a run: one by every release */
  function Releases(steps: seq<Step>): nat {
    if steps == [] then 0 else (if steps[0].ReleaseStep? then 1 else 0) + Releases(steps[1..])
  }

  /** The takes that return RT_EOK over a run */
  ghost function Granted(s: State, steps: seq<Step>, s': State): nat
    requires Run(s, steps, s')
    decreases |steps|
  {
    if steps == [] then 0
    else
      var one := match steps[0]
                 case TakeStep(t, time) => if Take(s, t, time).1 == Some(EOK) then 1 else 0
                 case ReturnStep(t) => if Return(s, t).1 == EOK then 1 else 0
                 case _ => 0;
      one + Granted(Next(s, steps[0]), steps[1..], s')
  }

  lemma {:induction false} TakenGranted(s: State, steps: seq<Step>, s': State)
    requires Run(s, steps, s')
    ensures s'.taken == s.taken + Granted(s, steps, s')
    decreases |steps|
  {
    hide Inv, Queued;
    if steps != [] {
      TakenGranted(Next(s, steps[0]), steps[1..], s');
    }
  }

  lemma {:induction false} RunKeeps(s: State, steps: seq<Step>, s': State)
    requires Inv(s) && Run(s, steps, s')
    ensures Inv(s')
    ensures (forall st :: st in steps ==> !st.ResetStep?) ==> s'.supply == s.supply + Releases(steps)
    decreases |steps|
  {
    hide Inv;
    if steps != [] {
      match steps[0] {
        case TakeStep(t, time) => TakeKeeps(s, t, time);
        case ReturnStep(t) => ReturnKeeps(s, t);
        case ReleaseStep => ReleaseKeeps(s);
        case TimeOutStep(t) => TimeOutKeeps(s, t);
        case ResetStep(value) => ResetKeeps(s, value);
      }
      RunKeeps(Next(s, steps[0]), steps[1..], s');
      hide Take;
      assert steps[0] in steps;
    }
  }

  /** Over every run of takes, releases and timeouts from rt_sem_init: the initial value and one unit for each
      release are the value left, the takes that have returned RT_EOK, and the threads woken with a unit in hand;
      and a thread waits only when the value is 0. */
  lemma UnitsConserved(flag: Flag, value: nat, priority: map<Tid, nat>, steps: seq<Step>, s: State)
    requires Run(Fresh(flag, value, priority), steps, s) && forall st :: st in steps ==> !st.ResetStep?
    ensures value + Releases(steps) == s.value + Granted(Fresh(flag, value, priority), steps, s) + |Woken(s.pending)|
    ensures s.waiters != [] ==> s.value == 0
  {
    TakenGranted(Fresh(flag, value, priority), steps, s);
    hide Run, Granted;
    assert Woken(map[]) == {};
    RunKeeps(Fresh(flag, value, priority), steps, s);
  }
}

/** The semaphore object, updated in place. */
module Semaphore {
  import opened Basics
  import opened IntrusiveList
  import opened WaitList
  import opened SuspendLists
  import opened SemaphoreModel

  class SemaphoreObject {
    const flag: Flag
    const list: SuspendList
    var value: nat
    var currentPriority: map<Tid, nat>
    var error: map<Tid, Err>
    ghost var supply: int
    ghost var taken: nat
    ghost var since: map<Tid, nat>
    ghost var clock: nat

    ghost function Abs(): State
      reads this, list
    {
      State(flag, value, list.waiters, currentPriority, error, supply, taken, since, clock)
    }

    ghost predicate Valid()
      reads this, list, list.mem
    {
      list.Valid() && Inv(Abs())
    }

    /** rt_sem_init */
    constructor (flag: Flag, value: nat, priorities: map<Tid, nat>)
      ensures Valid() && fresh(list) && fresh(list.mem) && Abs() == Fresh(flag, value, priorities)
    {
      this.flag := flag;
      list := new SuspendList();
      this.value, currentPriority, error, supply, taken := value, priorities, map[], value, 0;
      since, clock := map[], 0;
      new;
      assert Woken(map[]) == {};
    }

    /** rt_sem_take up to its return or the schedule; None: the thread waits. */
    method Take(thread: Tid, time: int) returns (r: Option<Err>)
      requires Valid() && Runs(Abs(), thread)
      modifies this, list, list.mem
      ensures Valid() && forall w :: w in old(list.waiters) ==> w in old(currentPriority)
      ensures (Abs(), r) == SemaphoreModel.Take(old(Abs()), thread, time)
    {
      hide Queued, Ring, Distinct, Sorted, Woken;
      TakeKeeps(Abs(), thread, time);
      if value > 0 {
        value := value - 1;
        taken := taken + 1;
        return Some(EOK);
      }
      if time == 0 {
        return Some(ETIMEOUT);
      }
      list.Suspend(flag, currentPriority, thread);
      since := since[thread := clock];
      clock := clock + 1;
      r := None;
    }

    /** rt_sem_take behind rt_schedule */
    method Continue(thread: Tid) returns (r: Err)
      requires Valid() && thread in error
      modifies `error, `taken
      ensures Valid() && (Abs(), r) == Return(old(Abs()), thread)
    {
      hide Inv;
      ReturnKeeps(Abs(), thread);
      r := error[thread];
      error := error - {thread};
      taken := if r == EOK then taken + 1 else taken;
    }

    /** rt_sem_release; the value is below 65535. */
    method Release()
      requires Valid() && value < 0xFFFF
      modifies this, list, list.mem
      ensures Valid() && Abs() == SemaphoreModel.Release(old(Abs()))
    {
      hide Inv, Ring;
      ReleaseKeeps(Abs());
      var empty := list.IsEmpty();
      if !empty {
        var thread := list.RemoveFirst();
        error := error[thread := EOK];
      } else {
        value := value + 1;
      }
      supply := supply + 1;
    }

    /** rt_thread_timeout of a waiting thread */
    method ThreadTimeout(thread: Tid)
      requires Valid() && thread in list.waiters
      modifies `error, list, list.mem
      ensures Valid() && Abs() == TimeOut(old(Abs()), thread)
    {
      hide Ring, RemoveAt, Erase, Sorted, Woken, Stamped, InTurn;
      TimeOutKeeps(Abs(), thread);
      ghost var i :| 0 <= i < |list.waiters| && list.waiters[i] == thread;
      EraseAt(list.waiters, i);
      hide Inv;
      error := error[thread := ETIMEOUT];
      list.Remove(thread, i);
    }

    /** rt_sem_control with RT_IPC_CMD_RESET */
    method ControlReset(newValue: nat)
      requires Valid()
      modifies this, list, list.mem
      ensures Valid() && Abs() == Reset(old(Abs()), newValue)
    {
      hide Inv, Ring;
      ResetKeeps(Abs(), newValue);
      error := list.ResumeAll(error);
      supply := supply - value + newValue % 0x1_0000;
      value := newValue % 0x1_0000;
    }
  }
}
