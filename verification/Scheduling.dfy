/** Ready queues and thread states as src/scheduler.c and src/thread.c promise them: what a schedule
    picks, what every thread operation keeps, and fairness among equals. */
module Scheduling {
  import opened Basics
  import opened Bitmap

  type Tid = nat

  datatype Stat = INIT | READY | SUSPEND | RUNNING | CLOSE

  /** Lower numbers are more urgent; number, numberMask and highMask place the priority in the bitmap. */
  datatype Thread = Thread(
    stat: Stat, initPriority: nat, priority: nat, number: nat, numberMask: Word, highMask: Word,
    initTick: nat, remainingTick: nat)

  /** rt_thread_priority_table, all threads, and rt_current_thread */
  datatype System = System(ready: seq<seq<Tid>>, threads: map<Tid, Thread>, current: Option<Tid>)

  // ---------------------------------------------------------------- what holds between operations

  ghost predicate ListOk(s: System, p: nat)
    requires p < |s.ready|
  {
    Distinct(s.ready[p]) && forall t :: t in s.ready[p] ==> Belongs(s, t, p)
  }

  ghost predicate Belongs(s: System, t: Tid, p: nat) {
    t in s.threads && s.threads[t].stat == READY && s.threads[t].priority == p
  }

  ghost predicate ThreadOk(s: System, t: Tid)
    requires t in s.threads
  {
    var th := s.threads[t];
    && th.priority < |s.ready| && th.initPriority < |s.ready|
    && (th.stat == READY ==> t in s.ready[th.priority])
    && (th.stat == RUNNING ==> s.current == Some(t))
  }

  /** READY threads are in the list of their priority and nowhere else, only the current thread runs,
      and it is in no list. */
  ghost predicate Queued(s: System) {
    && (forall p :: 0 <= p < |s.ready| ==> ListOk(s, p))
    && (forall t :: t in s.threads ==> ThreadOk(s, t))
    && (s.current.Some? ==> s.current.value in s.threads && s.threads[s.current.value].stat !in {READY, INIT})
  }

  // ---------------------------------------------------------------- queue operations

  function SetStat(s: System, t: Tid, stat: Stat): System
    requires t in s.threads
  {
    s.(threads := s.threads[t := s.threads[t].(stat := stat)])
  }

  /** Every list without t */
  function Unlinked(ready: seq<seq<Tid>>, t: Tid): seq<seq<Tid>> {
    seq(|ready|, p requires 0 <= p < |ready| => Erase(ready[p], t))
  }

  /** rt_schedule_insert_thread */
  function Insert(s: System, t: Tid): System
    requires t in s.threads && s.threads[t].priority < |s.ready|
  {
    if s.current == Some(t) then SetStat(s, t, RUNNING)
    else
      var p := s.threads[t].priority;
      SetStat(s, t, READY).(ready := s.ready[p := s.ready[p] + [t]])
  }

  /** rt_schedule_remove_thread */
  function Take(s: System, t: Tid): System {
    s.(ready := Unlinked(s.ready, t))
  }

  /** The first non-empty list, or the number of lists. */
  function Highest(ready: seq<seq<Tid>>): (p: nat)
    ensures p <= |ready| && (p < |ready| ==> ready[p] != []) && forall q :: 0 <= q < p ==> ready[q] == []
  {
    if ready == [] || ready[0] != [] then 0
    else
      var p := Highest(ready[1..]);
      assert forall q :: 1 <= q < 1 + p ==> ready[q] == ready[1..][q - 1];
      1 + p
  }

  /** The switch to thread t, taken out of its list. */
  function SwitchTo(s: System, t: Tid): System
    requires t in s.threads
  {
    SetStat(Take(s, t), t, RUNNING)
  }

  /** rt_schedule with the scheduler unlocked */
  function Schedule(s: System): System
    requires Queued(s) && s.current.Some?
  {
    var p := Highest(s.ready);
    if p == |s.ready| then s
    else
      var c, t := s.current.value, s.ready[p][0];
      assert ListOk(s, p) && t in s.ready[p];
      assert ThreadOk(s, c);
      if s.threads[c].stat == RUNNING then
        if s.threads[c].priority < p then s
        else SwitchTo(Insert(s.(current := Some(t)), c), t)
      else SwitchTo(s.(current := Some(t)), t)
  }

  // ---------------------------------------------------------------- they keep the queues right

  lemma ListsDistinct(s: System)
    requires Queued(s)
    ensures forall p :: 0 <= p < |s.ready| ==> Distinct(s.ready[p])
  {
    forall p | 0 <= p < |s.ready| ensures Distinct(s.ready[p]) {
      assert ListOk(s, p);
    }
  }

  lemma UnlinkedProps(ready: seq<seq<Tid>>, t: Tid)
    requires forall p :: 0 <= p < |ready| ==> Distinct(ready[p])
    ensures |Unlinked(ready, t)| == |ready|
    ensures forall p :: 0 <= p < |ready| ==> Distinct(Unlinked(ready, t)[p]) && t !in Unlinked(ready, t)[p]
    ensures forall p, u :: 0 <= p < |ready| && u != t ==> (u in Unlinked(ready, t)[p] <==> u in ready[p])
    ensures forall p :: 0 <= p < |ready| && t !in ready[p] ==> Unlinked(ready, t)[p] == ready[p]
  {
    forall p | 0 <= p < |ready|
      ensures Distinct(Unlinked(ready, t)[p]) && t !in Unlinked(ready, t)[p]
      ensures forall u :: u != t ==> (u in Unlinked(ready, t)[p] <==> u in ready[p])
      ensures t !in ready[p] ==> Unlinked(ready, t)[p] == ready[p]
    {
      EraseProps(ready[p], t);
      if t in ready[p] {
        var i :| 0 <= i < |ready[p]| && ready[p][i] == t;
        EraseAt(ready[p], i);
        RemoveDistinct(ready[p], i);
      }
    }
  }

  /** Taking a thread out of its list and giving it a state other than READY and RUNNING. */
  lemma TakeQueued(s: System, t: Tid, stat: Stat)
    requires Queued(s) && t in s.threads && stat in {SUSPEND, CLOSE}
    ensures Queued(SetStat(Take(s, t), t, stat))
  {
    var s' := SetStat(Take(s, t), t, stat);
    ListsDistinct(s);
    UnlinkedProps(s.ready, t);
    hide Unlinked, Distinct;
    forall p | 0 <= p < |s'.ready| ensures ListOk(s', p) {
      assert ListOk(s, p);
      forall u | u in s'.ready[p] ensures Belongs(s', u, p) {
        assert Belongs(s, u, p);
      }
    }
    forall u | u in s'.threads ensures ThreadOk(s', u) {
      assert ThreadOk(s, u);
    }
  }

  /** Inserting a thread that is in no list. */
  lemma InsertQueued(s: System, t: Tid)
    requires Queued(s) && t in s.threads && s.threads[t].stat != READY
    ensures Queued(Insert(s, t))
  {
    hide Distinct;
    assert ThreadOk(s, t);
    var s', p0 := Insert(s, t), s.threads[t].priority;
    forall p | 0 <= p < |s'.ready| ensures ListOk(s', p) {
      assert ListOk(s, p);
      assert t in s.ready[p] ==> Belongs(s, t, p);
      AppendDistinct(s.ready[p], t);
      forall u | u in s'.ready[p] ensures Belongs(s', u, p) {
        assert u != t ==> Belongs(s, u, p);
      }
    }
    forall u | u in s'.threads ensures ThreadOk(s', u) {
      assert ThreadOk(s, u);
    }
  }

  /** The switch: the thread that was current must no longer be RUNNING. */
  lemma SwitchQueued(s: System, t: Tid)
    requires Queued(s.(current := None)) && t in s.threads && s.current == Some(t)
    ensures Queued(SwitchTo(s, t))
  {
    var s', s0 := SwitchTo(s, t), s.(current := None);
    ListsDistinct(s0);
    UnlinkedProps(s.ready, t);
    hide Unlinked, Distinct;
    forall p | 0 <= p < |s'.ready| ensures ListOk(s', p) {
      assert ListOk(s0, p);
      forall u | u in s'.ready[p] ensures Belongs(s', u, p) {
        assert Belongs(s0, u, p);
      }
    }
    forall u | u in s'.threads ensures ThreadOk(s', u) {
      assert ThreadOk(s0, u);
    }
  }

  /** What a schedule does to the current thread before the switch. */
  function Outgoing(s: System): System
    requires Queued(s) && s.current.Some?
  {
    var c := s.current.value;
    assert ThreadOk(s, c);
    if s.threads[c].stat == RUNNING then Insert(s.(current := None), c) else s.(current := None)
  }

  lemma OutgoingQueued(s: System)
    requires Queued(s) && s.current.Some?
    ensures Queued(Outgoing(s))
  {
    hide Distinct;
    var c, s0 := s.current.value, s.(current := None);
    assert ThreadOk(s, c);
    var s', p0 := Outgoing(s), s.threads[c].priority;
    forall p | 0 <= p < |s'.ready| ensures ListOk(s', p) {
      assert ListOk(s, p);
      assert c in s.ready[p] ==> Belongs(s, c, p);
      AppendDistinct(s.ready[p], c);
      forall u | u in s'.ready[p] ensures Belongs(s', u, p) {
        assert u != c ==> Belongs(s, u, p);
      }
    }
    forall u | u in s'.threads ensures ThreadOk(s', u) {
      assert ThreadOk(s, u);
    }
  }

  /** The current thread stays exactly when it runs and is strictly more urgent than every READY thread. */
  ghost predicate Stays(s: System)
    requires Queued(s) && s.current.Some?
  {
    && s.threads[s.current.value].stat == RUNNING
    && forall t :: t in s.threads && s.threads[t].stat == READY ==> s.threads[s.current.value].priority < s.threads[t].priority
  }

  ghost predicate Runnable(s: System, t: Tid) {
    t in s.threads && s.threads[t].stat in {READY, RUNNING}
  }

  /** The head of the first non-empty list is a most urgent READY thread. */
  lemma HighestIsMostUrgent(s: System)
    requires Queued(s)
    ensures var p := Highest(s.ready);
            if p == |s.ready| then forall t :: t in s.threads ==> s.threads[t].stat != READY
            else s.ready[p][0] in s.threads && s.threads[s.ready[p][0]].stat == READY && s.threads[s.ready[p][0]].priority == p
                 && forall t :: t in s.threads && s.threads[t].stat == READY ==> p <= s.threads[t].priority
  {
    var p := Highest(s.ready);
    if p < |s.ready| {
      assert ListOk(s, p) && s.ready[p][0] in s.ready[p];
      assert Belongs(s, s.ready[p][0], p);
    }
    forall t | t in s.threads && s.threads[t].stat == READY ensures p <= s.threads[t].priority && p < |s.ready| {
      assert ThreadOk(s, t);
    }
  }

  lemma ScheduleForm(s: System)
    requires Queued(s) && s.current.Some?
    ensures var p := Highest(s.ready);
            if p == |s.ready| || Stays(s) then Schedule(s) == s
            else var t := s.ready[p][0];
                 && t in s.threads && Schedule(s) == SwitchTo(Outgoing(s).(current := Some(t)), t)
  {
    HighestIsMostUrgent(s);
  }

  /** A schedule keeps the queues right. */
  lemma ScheduleQueued(s: System)
    requires Queued(s) && s.current.Some?
    ensures Queued(Schedule(s)) && Schedule(s).current.Some? && |Schedule(s).ready| == |s.ready|
  {
    hide Schedule, Outgoing, Distinct, ListOk, ThreadOk;
    ScheduleForm(s);
    HighestIsMostUrgent(s);
    var p := Highest(s.ready);
    if p < |s.ready| && !Stays(s) {
      var t := s.ready[p][0];
      OutgoingQueued(s);
      var s1 := Outgoing(s).(current := Some(t));
      OutgoingCurrent(s);
      assert s1.(current := None) == Outgoing(s);
      SwitchQueued(s1, t);
    }
  }

  lemma OutgoingCurrent(s: System)
    requires Queued(s) && s.current.Some?
    ensures Outgoing(s).current == None && |Outgoing(s).ready| == |s.ready|
    ensures Outgoing(s).threads.Keys == s.threads.Keys
  {
  }

  /** A schedule changes who runs, not who can: a thread's state moves at most between READY and RUNNING. */
  lemma ScheduleThread(s: System, t: Tid)
    requires Queued(s) && s.current.Some? && t in s.threads
    ensures Schedule(s).threads.Keys == s.threads.Keys
    ensures Schedule(s).threads[t] == s.threads[t].(stat := Schedule(s).threads[t].stat)
    ensures Runnable(Schedule(s), t) <==> Runnable(s, t)
    ensures !Runnable(s, t) ==> Schedule(s).threads[t] == s.threads[t]
  {
    hide Schedule, Distinct, Unlinked, ListOk, ThreadOk, Outgoing;
    ScheduleForm(s);
    HighestIsMostUrgent(s);
    OutgoingCurrent(s);
    OutgoingThread(s, t);
  }

  lemma OutgoingThread(s: System, t: Tid)
    requires Queued(s) && s.current.Some? && t in s.threads
    ensures Outgoing(s).threads.Keys == s.threads.Keys
    ensures Outgoing(s).threads[t] == s.threads[t].(stat := Outgoing(s).threads[t].stat)
    ensures Runnable(Outgoing(s), t) <==> Runnable(s, t)
    ensures !Runnable(s, t) ==> Outgoing(s).threads[t] == s.threads[t]
    ensures Outgoing(s).threads[t].stat == if s.threads[t].stat == RUNNING then READY else s.threads[t].stat
  {
    assert ThreadOk(s, t);
  }

  /** After a schedule with something runnable, a most urgent runnable thread is RUNNING; the current
      thread is kept only when it is strictly more urgent than all others. */
  lemma ScheduleMostUrgent(s: System)
    requires Queued(s) && s.current.Some? && exists t :: Runnable(s, t)
    ensures var s' := Schedule(s);
            && s'.current.Some? && s'.current.value in s'.threads && s'.threads[s'.current.value].stat == RUNNING
            && (forall t :: Runnable(s', t) ==> s'.threads[s'.current.value].priority <= s'.threads[t].priority)
            && (s'.current == s.current <==> Stays(s))
  {
    hide Schedule, Distinct, Unlinked;
    ScheduleForm(s);
    HighestIsMostUrgent(s);
    var s', p := Schedule(s), Highest(s.ready);
    if p == |s.ready| {
      assert forall t :: t in s.threads && s.threads[t].stat == RUNNING ==> ThreadOk(s, t);
    }
    if p < |s.ready| {
      ScheduleThread(s, s.ready[p][0]);
    }
    forall t | Runnable(s', t) ensures s'.threads[s'.current.value].priority <= s'.threads[t].priority {
      ScheduleThread(s, s.current.value);
      assert t in s.threads;
      ScheduleThread(s, t);
      assert ThreadOk(s, t);
    }
  }

  // ---------------------------------------------------------------- fairness

  /** The current thread runs, and READY threads of its priority are the most urgent ones. */
  ghost predicate Peers(s: System) {
    && Queued(s) && s.current.Some? && s.threads[s.current.value].stat == RUNNING
    && Highest(s.ready) < |s.ready| && s.threads[s.current.value].priority == Highest(s.ready)
  }

  /** The threads that share the top priority, the running one first. */
  ghost function Round(s: System): seq<Tid>
    requires Peers(s)
  {
    [s.current.value] + s.ready[Highest(s.ready)]
  }

  /** n calls of rt_schedule in a row */
  ghost function RoundRobin(s: System, n: nat): (s': System)
    requires Queued(s) && s.current.Some?
    ensures Queued(s') && s'.current.Some?
  {
    if n == 0 then s
    else
      var s1 := RoundRobin(s, n - 1);
      ScheduleQueued(s1);
      Schedule(s1)
  }

  function Rotation(l: seq<Tid>, n: nat): seq<Tid>
    requires n < |l|
  {
    l[n..] + l[..n]
  }

  /** Thread c stops running, thread r runs. */
  function Handed(threads: map<Tid, Thread>, c: Tid, r: Tid): map<Tid, Thread>
    requires c in threads && r in threads
  {
    var m := threads[c := threads[c].(stat := READY)];
    m[r := m[r].(stat := RUNNING)]
  }

  lemma HandedOn(threads: map<Tid, Thread>, c: Tid, r: Tid, r': Tid)
    requires c in threads && r in threads && r' in threads
    requires r != r' && (r != c ==> threads[r].stat == READY)
    ensures Handed(Handed(threads, c, r), r, r') == Handed(threads, c, r')
    ensures threads[c].stat == RUNNING ==> Handed(threads, c, c) == threads
  {
  }

  /** s after the round has turned by n threads. */
  ghost function Turned(s: System, n: nat): System
    requires Peers(s) && n < |Round(s)|
  {
    var c, r, p := s.current.value, Round(s)[n], Highest(s.ready);
    RoundKnown(s);
    System(s.ready[p := Rotation(Round(s), n)[1..]], Handed(s.threads, c, r), Some(r))
  }

  lemma RoundKnown(s: System)
    requires Peers(s)
    ensures Distinct(Round(s)) && |Round(s)| >= 2
    ensures forall i :: 0 <= i < |Round(s)| ==> Round(s)[i] in s.threads && s.threads[Round(s)[i]].priority == Highest(s.ready)
    ensures forall i :: 1 <= i < |Round(s)| ==> s.threads[Round(s)[i]].stat == READY
    ensures forall q, i :: 0 <= q < |s.ready| && q != Highest(s.ready) && 0 <= i < |Round(s)| ==> Round(s)[i] !in s.ready[q]
  {
    var p, ring, c := Highest(s.ready), Round(s), s.current.value;
    assert ListOk(s, p);
    forall i | 1 <= i < |ring| ensures Belongs(s, ring[i], p) {
      assert ring[i] == s.ready[p][i - 1] && s.ready[p][i - 1] in s.ready[p];
    }
    forall q, i | 0 <= q < |s.ready| && q != p && 0 <= i < |ring| ensures ring[i] !in s.ready[q] {
      assert ListOk(s, q);
      assert ring[i] in s.ready[q] ==> Belongs(s, ring[i], q);
    }
  }

  /** A schedule among peers: the running thread goes to the end of its list, the head runs. */
  lemma SwitchPeer(s: System)
    requires Peers(s)
    ensures Schedule(s) == Turned(s, 1)
  {
    hide Distinct;
    RoundKnown(s);
    var p, c, l := Highest(s.ready), s.current.value, s.ready[Highest(s.ready)];
    var t := l[0];
    assert Round(s)[1] == t && Round(s)[0] == c;
    assert Schedule(s) == SwitchTo(Insert(s.(current := Some(t)), c), t) by {
      assert t != c by { DistinctAt(Round(s), 0, 1); }
      assert ThreadOk(s, c);
    }
    var s1 := Insert(s.(current := Some(t)), c);
    DistinctAt(Round(s), 0, 1);
    assert s1.ready == s.ready[p := l + [c]];
    forall q | 0 <= q < |s.ready| ensures Unlinked(s1.ready, t)[q] == Turned(s, 1).ready[q] {
      if q == p {
        EraseProps(l[1..] + [c], t);
        assert Rotation(Round(s), 1) == l + [c];
        PeerErase(s, l, t, c);
      } else {
        assert Round(s)[1] !in s.ready[q];
        EraseProps(s.ready[q], t);
      }
    }
    assert Unlinked(s1.ready, t) == Turned(s, 1).ready;
  }

  lemma PeerErase(s: System, l: seq<Tid>, t: Tid, c: Tid)
    requires Peers(s) && l == s.ready[Highest(s.ready)] && t == l[0] && c == s.current.value
    ensures Erase(l + [c], t) == l[1..] + [c]
  {
    RoundKnown(s);
    var x := l + [c];
    forall i, j | 0 <= i < j < |x| ensures x[i] != x[j] {
      var i', j' := if i < |l| then i + 1 else 0, if j < |l| then j + 1 else 0;
      assert Round(s)[i'] == x[i] && Round(s)[j'] == x[j];
      DistinctAt(Round(s), i', j');
    }
    assert Distinct(x);
    EraseAt(x, 0);
    assert RemoveAt(x, 0) == l[1..] + [c];
  }

  lemma TurnedPeers(s: System, n: nat)
    requires Peers(s) && n < |Round(s)| && Queued(Turned(s, n))
    ensures Peers(Turned(s, n)) && Highest(Turned(s, n).ready) == Highest(s.ready)
    ensures Round(Turned(s, n)) == Rotation(Round(s), n)
  {
    RoundKnown(s);
    var s', p := Turned(s, n), Highest(s.ready);
    assert s'.ready[p] != [];
    assert forall q :: 0 <= q < |s.ready| ==> (s'.ready[q] == [] <==> s.ready[q] == []);
    HighestSame(s.ready, s'.ready);
    assert Rotation(Round(s), n)[0] == Round(s)[n];
  }

  lemma HighestSame(a: seq<seq<Tid>>, b: seq<seq<Tid>>)
    requires |a| == |b| && forall q :: 0 <= q < |a| ==> (b[q] == [] <==> a[q] == [])
    ensures Highest(a) == Highest(b)
  {
  }

  /** Fairness: of k threads that share the top priority, the i-th next call of rt_schedule runs the
      i-th of them; the k-th call brings back the very state they started from. */
  lemma {:induction false} RoundRobinFair(s: System, n: nat)
    requires Peers(s) && n <= |Round(s)|
    ensures RoundRobin(s, n) == if n == |Round(s)| then s else Turned(s, n)
    ensures RoundRobin(s, n).current == Some(Round(s)[if n == |Round(s)| then 0 else n])
  {
    hide Schedule, Queued;
    RoundKnown(s);
    var ring := Round(s);
    if n == 0 {
      TurnedZero(s);
    } else {
      RoundRobinFair(s, n - 1);
      var s1 := RoundRobin(s, n - 1);
      TurnedPeers(s, n - 1);
      SwitchPeer(s1);
      TurnedAgain(s, n - 1);
    }
  }

  lemma TurnedZero(s: System)
    requires Peers(s)
    ensures |Round(s)| > 0 && Turned(s, 0) == s
  {
    var c, p := s.current.value, Highest(s.ready);
    RoundKnown(s);
    assert Rotation(Round(s), 0)[1..] == s.ready[p];
    assert s.ready[p := s.ready[p]] == s.ready;
    assert Turned(s, 0).threads == s.threads;
  }

  lemma TurnedAgain(s: System, n: nat)
    requires Peers(s) && n < |Round(s)| && Peers(Turned(s, n)) && Highest(Turned(s, n).ready) == Highest(s.ready)
    requires Round(Turned(s, n)) == Rotation(Round(s), n)
    ensures |Round(s)| >= 2 && Turned(Turned(s, n), 1) == if n + 1 == |Round(s)| then s else Turned(s, n + 1)
  {
    hide Handed, Queued;
    RoundKnown(s);
    var ring, s1, p, c := Round(s), Turned(s, n), Highest(s.ready), s.current.value;
    var next := if n + 1 == |ring| then 0 else n + 1;
    assert Rotation(ring, n)[1] == ring[next];
    assert Rotation(Rotation(ring, n), 1) == Rotation(ring, next);
    var s2 := Turned(s1, 1);
    TurnedZero(s);
    var goal := Turned(s, next);
    assert s2.ready == goal.ready;
    assert s2.current == goal.current;
    DistinctAt(ring, n, next);
    HandedOn(s.threads, c, ring[n], ring[next]);
  }
}
