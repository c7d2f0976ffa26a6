/** What each thread operation of src/thread.c does to the thread it is called for, to the other threads, and to the
    ready lists. */
module ThreadLaws {
  import opened Basics
  import opened Scheduling
  import opened ReadyQueues

  /** The other threads are as they were, and in every list in the order they were. */
  ghost predicate OthersKept(s: System, s': System, t: Tid) {
    && s'.threads.Keys == s.threads.Keys && |s'.ready| == |s.ready|
    && (forall u :: u in s.threads && u != t ==> s'.threads[u] == s.threads[u])
    && (forall q :: 0 <= q < |s.ready| ==> Erase(s'.ready[q], t) == Erase(s.ready[q], t))
  }

  /** Thread t is the last of list p and in no other place. */
  ghost predicate LastIn(s: System, t: Tid, p: nat) {
    && p < |s.ready| && s.ready[p] != [] && s.ready[p][|s.ready[p]| - 1] == t && t !in s.ready[p][..|s.ready[p]| - 1]
    && forall q :: 0 <= q < |s.ready| && q != p ==> t !in s.ready[q]
  }

  ghost predicate InNoList(s: System, t: Tid) {
    forall q :: 0 <= q < |s.ready| ==> t !in s.ready[q]
  }

  lemma {:induction false} EraseAppended(l: seq<Tid>, t: Tid)
    requires t !in l
    ensures Erase(l + [t], t) == l
  {
    if l == [] {
      assert Erase([t], t) == [];
    } else {
      assert (l + [t])[1..] == l[1..] + [t];
      EraseAppended(l[1..], t);
    }
  }

  lemma TakenLists(s: System, t: Tid)
    ensures InNoList(Take(s, t), t) && |Take(s, t).ready| == |s.ready|
    ensures forall q :: 0 <= q < |s.ready| ==> Erase(Take(s, t).ready[q], t) == Erase(s.ready[q], t)
  {
    forall q | 0 <= q < |s.ready|
      ensures t !in Take(s, t).ready[q] && Erase(Take(s, t).ready[q], t) == Erase(s.ready[q], t)
    {
      EraseProps(s.ready[q], t);
      EraseProps(Erase(s.ready[q], t), t);
    }
  }

  /** Inserting a thread other than the current one that is in no list. */
  lemma InsertedLists(s: System, t: Tid)
    requires t in s.threads && s.threads[t].priority < |s.ready| && InNoList(s, t) && s.current != Some(t)
    ensures OthersKept(s, Insert(s, t), t) && LastIn(Insert(s, t), t, s.threads[t].priority)
    ensures Insert(s, t).threads[t] == s.threads[t].(stat := READY) && Insert(s, t).current == s.current
  {
    EraseAppended(s.ready[s.threads[t].priority], t);
    EraseProps(s.ready[s.threads[t].priority], t);
  }

  lemma OutsideLists(s: System, t: Tid)
    requires SystemOk(s) && t in s.threads && s.threads[t].stat != READY
    ensures InNoList(s, t) && s.threads[t].priority < |s.ready|
  {
    SystemThread(s, t);
  }

  lemma KeptTwice(s: System, s1: System, s2: System, t: Tid)
    requires OthersKept(s, s1, t) && OthersKept(s1, s2, t)
    ensures OthersKept(s, s2, t)
  {
    hide Erase;
  }

  /** RT_THREAD_CTRL_CHANGE_PRIORITY: the thread has the priority asked for and nothing else of it changes; a READY
      thread is the last of that priority's list. */
  lemma ReprioritisedMeans(s: System, t: Tid, p: nat)
    requires SystemOk(s) && t in s.threads && p < |s.ready|
    ensures var s' := Reprioritised(s, t, p);
            && OthersKept(s, s', t) && s'.current == s.current
            && var (th, th') := (s.threads[t], s'.threads[t]);
            && th'.priority == p && MaskOk(|s.ready|, th')
            && th'.stat == th.stat && th'.initPriority == th.initPriority
            && th'.initTick == th.initTick && th'.remainingTick == th.remainingTick
            && if th.stat == READY then LastIn(s', t, p) else s'.ready == s.ready
  {
    hide Erase, Unlinked;
    SystemThread(s, t);
    if s.threads[t].stat == READY {
      TakenLists(s, t);
      var s1 := Take(s, t);
      var s2 := s1.(threads := s1.threads[t := WithPriority(|s.ready|, s1.threads[t], p)]);
      NotCurrent(s, t);
      InsertedLists(s2, t);
      KeptTwice(s, s2, Insert(s2, t), t);
    }
  }

  lemma NotCurrent(s: System, t: Tid)
    requires SystemOk(s) && t in s.threads && s.threads[t].stat in {READY, INIT}
    ensures s.current != Some(t)
  {
  }

  /** rt_thread_suspend: a READY or RUNNING thread ends in SUSPEND and in no list; any other thread, and every other
      part of the system, stays as it is. */
  lemma SuspendedMeans(s: System, t: Tid)
    requires SystemOk(s) && t in s.threads
    ensures var s' := Suspended(s, t);
            && OthersKept(s, s', t) && s'.current == s.current
            && if s.threads[t].stat in {READY, RUNNING} then s'.threads[t] == s.threads[t].(stat := SUSPEND) && InNoList(s', t)
               else s' == s
  {
    hide Erase, Unlinked;
    TakenLists(s, t);
  }

  /** rt_thread_resume: a SUSPEND thread is READY and the last of its priority's list, unless it is the thread that is
      running, which goes on; any other thread stays as it is. */
  lemma ResumedMeans(s: System, t: Tid)
    requires SystemOk(s) && t in s.threads
    ensures s.threads[t].priority < |s.ready|
    ensures var s' := Resumed(s, t);
            && OthersKept(s, s', t) && s'.current == s.current
            && if s.threads[t].stat != SUSPEND then s' == s
               else if s.current == Some(t) then s'.threads[t] == s.threads[t].(stat := RUNNING) && s'.ready == s.ready
               else s'.threads[t] == s.threads[t].(stat := READY) && LastIn(s', t, s.threads[t].priority)
  {
    hide Erase;
    SystemThread(s, t);
    if s.threads[t].stat == SUSPEND {
      OutsideLists(s, t);
      if s.current != Some(t) {
        InsertedLists(s, t);
      }
    }
  }

  /** rt_thread_delete and rt_thread_detach: the thread ends in CLOSE and in no list. */
  lemma ClosedMeans(s: System, t: Tid)
    requires SystemOk(s) && t in s.threads
    ensures var s' := Closed(s, t);
            && OthersKept(s, s', t) && s'.current == s.current && InNoList(s', t)
            && s'.threads[t] == s.threads[t].(stat := CLOSE)
  {
    hide Erase, Unlinked;
    if s.threads[t].stat == INIT {
      OutsideLists(s, t);
    } else {
      TakenLists(s, t);
    }
  }

  /** rt_thread_startup before it schedules: the thread is READY at its initial priority, the last of that list. */
  lemma StartedMeans(s: System, t: Tid)
    requires SystemOk(s) && t in s.threads && s.threads[t].stat == INIT
    ensures s.threads[t].initPriority < |s.ready|
    ensures var s' := Started(s, t);
            && OthersKept(s, s', t) && s'.current == s.current
            && var (th, th') := (s.threads[t], s'.threads[t]);
            && th'.stat == READY && th'.priority == th.initPriority && MaskOk(|s.ready|, th')
            && th'.initPriority == th.initPriority && th'.initTick == th.initTick && th'.remainingTick == th.remainingTick
            && LastIn(s', t, th.initPriority)
  {
    hide Erase, Queued;
    SystemThread(s, t);
    OutsideLists(s, t);
    NotCurrent(s, t);
    hide SystemOk;
    var s1 := s.(threads := s.threads[t := WithPriority(|s.ready|, s.threads[t], s.threads[t].initPriority).(stat := SUSPEND)]);
    InsertedLists(s1, t);
    KeptTwice(s, s1, Insert(s1, t), t);
  }

  // ---------------------------------------------------------------- operations that schedule

  /** With the scheduler unlocked, a most urgent thread that can run is the one that runs. */
  ghost predicate MostUrgentRuns(s: System) {
    (exists t :: Runnable(s, t)) ==>
      && s.current.Some? && s.current.value in s.threads && s.threads[s.current.value].stat == RUNNING
      && forall t :: Runnable(s, t) ==> s.threads[s.current.value].priority <= s.threads[t].priority
  }

  /** From s to s' threads have at most been switched: READY and RUNNING may have changed places, and nothing else. */
  ghost predicate Switched(s: System, s': System) {
    && s'.threads.Keys == s.threads.Keys
    && forall t :: t in s.threads ==>
         && s'.threads[t] == s.threads[t].(stat := s'.threads[t].stat)
         && (if Runnable(s, t) then Runnable(s', t) else s'.threads[t] == s.threads[t])
  }

  lemma ScheduledMeans(s: System, lockNest: nat)
    requires SystemOk(s) && s.current.Some?
    ensures var s' := Scheduled(s, lockNest); Switched(s, s') && if lockNest == 0 then MostUrgentRuns(s') else s' == s
  {
    hide Queued, Schedule, MaskOk;
    ScheduleThread(s, s.current.value) by {
      assert s.current.value in s.threads by { CurrentKnown(s); }
    }
    forall t | t in s.threads
      ensures t in Schedule(s).threads && Schedule(s).threads[t] == s.threads[t].(stat := Schedule(s).threads[t].stat)
      ensures if Runnable(s, t) then Runnable(Schedule(s), t) else Schedule(s).threads[t] == s.threads[t]
    {
      ScheduleThread(s, t);
    }
    if exists t :: Runnable(Schedule(s), t) {
      var t :| Runnable(Schedule(s), t);
      ScheduleThread(s, t);
      assert Runnable(s, t);
      ScheduleMostUrgent(s);
    }
  }

  /** rt_system_scheduler_start: a most urgent READY thread runs, out of its list, and nothing else changes. */
  lemma FirstSwitchMeans(s: System)
    requires SystemOk(s) && s.current.None? && Highest(s.ready) < |s.ready|
    ensures var s' := FirstSwitch(s);
            && MostUrgentRuns(s') && s'.current.Some? && s'.current.value in s.threads && s.threads[s'.current.value].stat == READY
            && s'.threads[s'.current.value] == s.threads[s'.current.value].(stat := RUNNING)
            && OthersKept(s, s', s'.current.value) && InNoList(s', s'.current.value)
  {
    HighestIsMostUrgent(s);
    var t := s.ready[Highest(s.ready)][0];
    TakenLists(s, t);
    forall u | u in s.threads && s.threads[u].stat == RUNNING ensures s.current == Some(u) {
      assert ThreadOk(s, u);
    }
    hide Erase, Unlinked, Queued, MaskOk;
  }

  lemma CurrentKnown(s: System)
    requires SystemOk(s) && s.current.Some?
    ensures s.current.value in s.threads
  {
  }

  /** rt_thread_startup: the thread can run, at its initial priority, and a running system schedules. */
  lemma StartUpMeans(s: System, t: Tid, lockNest: nat)
    requires SystemOk(s) && t in s.threads && s.threads[t].stat == INIT
    ensures var s' := StartUp(s, t, lockNest);
            && t in s'.threads && Runnable(s', t) && s'.threads[t].priority == s.threads[t].initPriority
            && (s.current.Some? && lockNest == 0 ==> MostUrgentRuns(s'))
            && (s.current.None? || lockNest > 0 ==> s'.current == s.current && OthersKept(s, s', t))
            && s'.threads.Keys == s.threads.Keys
            && forall u :: u in s.threads && u != t ==> Alike(s, s', u)
  {
    StartedOk(s, t);
    StartedMeans(s, t);
    StartedCurrent(s, t);
    hide SystemOk, MaskOk, Started, LastIn;
    if s.current.Some? {
      ScheduledMeans(Started(s, t), lockNest);
    }
    hide Scheduled, MostUrgentRuns;
  }

  /** Thread u can run after s' if it could in s, and otherwise is what it was. */
  ghost predicate Alike(s: System, s': System, u: Tid)
    requires u in s.threads && u in s'.threads
  {
    && s'.threads[u] == s.threads[u].(stat := s'.threads[u].stat)
    && if Runnable(s, u) then Runnable(s', u) else s'.threads[u] == s.threads[u]
  }

  /** rt_thread_exit: the current thread ends in CLOSE and in no list, and the system schedules. */
  lemma ExitedMeans(s: System, lockNest: nat)
    requires SystemOk(s) && s.current.Some?
    ensures s.current.value in s.threads
    ensures var (s', t) := (Exited(s, lockNest), s.current.value);
            && s'.threads.Keys == s.threads.Keys && s'.threads[t] == s.threads[t].(stat := CLOSE)
            && (lockNest == 0 ==> MostUrgentRuns(s')) && (lockNest > 0 ==> s'.current == s.current && InNoList(s', t))
            && forall u :: u in s.threads && u != t ==> Alike(s, s', u)
  {
    CurrentKnown(s);
    ClosedOk(s, s.current.value);
    ClosedMeans(s, s.current.value);
    hide SystemOk, Closed, InNoList;
    ScheduledMeans(Closed(s, s.current.value), lockNest);
    hide Scheduled, MostUrgentRuns;
  }

  /** rt_thread_timeout: the waiting thread can run again, and the system schedules. */
  lemma TimedOutMeans(s: System, t: Tid, lockNest: nat)
    requires SystemOk(s) && t in s.threads && s.threads[t].stat == SUSPEND && s.current.Some?
    ensures var s' := TimedOut(s, t, lockNest);
            && s'.threads.Keys == s.threads.Keys && Runnable(s', t)
            && s'.threads[t] == s.threads[t].(stat := s'.threads[t].stat)
            && (lockNest == 0 ==> MostUrgentRuns(s')) && (lockNest > 0 ==> s'.current == s.current && OthersKept(s, s', t))
            && forall u :: u in s.threads && u != t ==> Alike(s, s', u)
  {
    ResumedOk(s, t);
    ResumedMeans(s, t);
    ResumedCurrent(s, t);
    hide SystemOk, Resumed, LastIn;
    ScheduledMeans(Resumed(s, t), lockNest);
    hide Scheduled, MostUrgentRuns;
  }

  /** What a tick leaves of a time slice: one of 1 tick starts again in full, any other loses a tick, as a 32-bit
      counter. */
  ghost predicate TickedTo(th: Thread, left: nat) {
    if th.remainingTick % 0x1_0000_0000 == 1 then left == th.initTick
    else if th.remainingTick == 0 then left == 0xffff_ffff
    else th.remainingTick < 0x1_0000_0000 ==> left == th.remainingTick - 1
  }

  /** The time slice part of rt_tick_increase: a slice of 1 tick left starts again in full and the system schedules;
      any other loses one tick, as a 32-bit counter, and nothing else happens. */
  lemma TickedMeans(s: System, lockNest: nat)
    requires SystemOk(s) && s.current.Some?
    ensures s.current.value in s.threads
    ensures var (s', t) := (TickedAndYielded(s, lockNest), s.current.value);
            && s'.threads.Keys == s.threads.Keys
            && (forall u :: u in s.threads && u != t ==> Alike(s, s', u))
            && var (th, th') := (s.threads[t], s'.threads[t]);
            if th.remainingTick % 0x1_0000_0000 == 1 then
              && th'.initTick == th.initTick && th'.priority == th.priority
              && (Runnable(s, t) ==> Runnable(s', t))
              && if lockNest == 0 then MostUrgentRuns(s') else s'.current == s.current && s'.ready == s.ready
            else
              th' == th.(remainingTick := th'.remainingTick) && s'.current == s.current && s'.ready == s.ready
    ensures TickedTo(s.threads[s.current.value], TickedAndYielded(s, lockNest).threads[s.current.value].remainingTick)
  {
    CurrentKnown(s);
    TickedOk(s);
    TickedThread(s);
    hide SystemOk, Ticked;
    if s.threads[s.current.value].remainingTick % 0x1_0000_0000 == 1 {
      ScheduledMeans(Ticked(s), lockNest);
    }
    hide Scheduled, MostUrgentRuns, TickedTo;
  }

  /** Only the current thread's counter changes: it has one tick less, or is full again. */
  lemma TickedThread(s: System)
    requires SystemOk(s) && s.current.Some?
    ensures s.current.value in s.threads
    ensures var (s', t) := (Ticked(s), s.current.value);
            && t in s'.threads && s' == s.(threads := s.threads[t := s'.threads[t]])
            && s'.threads[t] == s.threads[t].(remainingTick := s'.threads[t].remainingTick)
            && TickedTo(s.threads[t], s'.threads[t].remainingTick)
  {
    CurrentKnown(s);
    TickLeft(s.threads[s.current.value].remainingTick);
    hide SystemOk;
  }

  lemma TickLeft(r: nat)
    ensures r % 0x1_0000_0000 == 1 <==> (r - 1) % 0x1_0000_0000 == 0
    ensures 0 < r < 0x1_0000_0000 ==> (r - 1) % 0x1_0000_0000 == r - 1
    ensures r == 0 ==> (r - 1) % 0x1_0000_0000 == 0xffff_ffff
  {
  }
}
