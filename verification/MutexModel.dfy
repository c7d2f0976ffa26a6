/** A mutex with priority inheritance, src/ipc.c: every step of take, release and timeout, and what holds
    after any interleaving of them when nothing else changes priorities. */
module MutexModel {
  import opened Basics
  import opened WaitList

  /** `waiters` is the mutex's list of suspended threads, `priority` the current priority of every thread
      (lower is more urgent), and `pending` the error codes of threads that have been resumed inside
      rt_mutex_take and have not returned from it yet.  For the statements only: `since` numbers the waiters
      in the order they came. */
  datatype State = State(
    flag: Flag, value: nat, hold: nat, owner: Option<Tid>, original: nat, waiters: seq<Tid>,
    priority: map<Tid, nat>, pending: map<Tid, Err>, since: map<Tid, nat>, clock: nat)

  // ---------------------------------------------------------------- steps

  function Suspend(s: State, t: Tid): State
    requires t in s.priority && forall w :: w in s.waiters ==> w in s.priority
  {
    s.(waiters := Queued(s.flag, s.waiters, s.priority, t), since := s.since[t := s.clock], clock := s.clock + 1)
  }

  /** The owner inherits the priority of thread t, if that is more urgent. */
  function Inherit(s: State, t: Tid): State
    requires t in s.priority && s.owner.Some? && s.owner.value in s.priority
  {
    if s.priority[t] < s.priority[s.owner.value] then s.(priority := s.priority[s.owner.value := s.priority[t]]) else s
  }

  /** Thread t may make a call: it is neither waiting nor on its way out of rt_mutex_take. */
  predicate Runs(s: State, t: Tid) {
    t in s.priority && t !in s.waiters && t !in s.pending
  }

  /** rt_mutex_take up to the return or the schedule; None: the thread now waits. */
  function Take(s: State, t: Tid, time: int): (State, Option<Err>)
    requires Runs(s, t) && (s.value == 0 ==> s.owner.Some? && s.owner.value in s.priority)
    requires forall w :: w in s.waiters ==> w in s.priority
  {
    if s.owner == Some(t) then (s.(hold := s.hold + 1), Some(EOK))
    else if s.value > 0 then
      (s.(value := s.value - 1, owner := Some(t), original := s.priority[t], hold := s.hold + 1), Some(EOK))
    else if time == 0 then (s, Some(ETIMEOUT))
    else (Suspend(Inherit(s, t), t), None)
  }

  /** rt_thread_timeout of a waiting thread */
  function Timeout(s: State, w: Tid): State
    requires w in s.waiters
  {
    s.(waiters := Erase(s.waiters, w), pending := s.pending[w := ETIMEOUT])
  }

  /** The rest of rt_mutex_take, once the thread runs again. */
  function Return(s: State, t: Tid): (State, Err)
    requires t in s.pending
  {
    (s.(pending := s.pending - {t}), s.pending[t])
  }

  /** rt_mutex_release */
  function Release(s: State, t: Tid): (State, Err)
    requires t in s.priority && (s.owner == Some(t) ==> s.hold > 0) && forall w :: w in s.waiters ==> w in s.priority
  {
    if s.owner != Some(t) then (s, ERROR)
    else if s.hold > 1 then (s.(hold := s.hold - 1), EOK)
    else (HandOn(s.(hold := 0, priority := s.priority[t := s.original])), EOK)
  }

  /** The mutex goes to the first waiter, or becomes free. */
  function HandOn(s: State): State
    requires forall w :: w in s.waiters ==> w in s.priority
  {
    if s.waiters != [] then
      var w := s.waiters[0];
      s.(owner := Some(w), original := s.priority[w], hold := s.hold + 1, waiters := s.waiters[1..], pending := s.pending[w := EOK])
    else s.(value := s.value + 1, owner := None, original := 0xff)
  }

  // ---------------------------------------------------------------- what always holds

  /** No thread waits for a less urgent owner. */
  ghost predicate Inherited(s: State)
    requires forall w :: w in s.waiters ==> w in s.priority
    requires s.owner.Some? ==> s.owner.value in s.priority
  {
    s.owner.Some? ==> forall w :: w in s.waiters ==> s.priority[s.owner.value] <= s.priority[w]
  }

  ghost predicate Known(s: State, base: map<Tid, nat>) {
    && s.priority.Keys == base.Keys
    && (forall w :: w in s.waiters ==> w in base) && (s.owner.Some? ==> s.owner.value in base)
  }

  /** Value, owner and hold agree; nobody waits for a free mutex. */
  ghost predicate Agree(s: State) {
    && s.value <= 1 && (s.value == 1 <==> s.owner.None?) && (s.value == 1 <==> s.hold == 0)
    && (s.value == 1 ==> s.waiters == [])
  }

  /** Only the owner's priority may differ from the one it came with, and only to be more urgent; the
      mutex remembers the one it came with. */
  ghost predicate Priorities(s: State, base: map<Tid, nat>)
    requires Known(s, base)
  {
    && (forall t :: t in base && s.owner != Some(t) ==> s.priority[t] == base[t])
    && (s.owner.Some? ==> s.original == base[s.owner.value] && s.priority[s.owner.value] <= base[s.owner.value])
  }

  ghost predicate Queues(s: State) {
    && Distinct(s.waiters) && (s.owner.Some? ==> s.owner.value !in s.waiters)
    && (forall w :: w in s.waiters ==> w !in s.pending)
    && (forall t :: t in s.pending && s.pending[t] == EOK ==> s.owner == Some(t) && s.hold == 1)
  }

  ghost predicate Inv(s: State, base: map<Tid, nat>) {
    && Known(s, base) && Agree(s) && Priorities(s, base) && Queues(s)
    && (s.flag == PRIO ==> Sorted(s.waiters, s.priority) && Inherited(s))
    && Stamped(s.waiters, s.since, s.clock) && InTurn(s.flag, s.waiters, s.priority, s.since)
  }

  // ---------------------------------------------------------------- every step keeps it

  lemma TakeKeeps(s: State, base: map<Tid, nat>, t: Tid, time: int)
    requires Inv(s, base) && Runs(s, t)
    ensures Inv(Take(s, t, time).0, base)
    ensures Take(s, t, time).1 == Some(EOK) ==> Take(s, t, time).0.owner == Some(t)
  {
    if s.owner != Some(t) && s.value == 0 && time != 0 {
      SuspendKeeps(s, base, t);
    }
  }

  /** Inheriting changes the owner's priority only, which is then no less urgent than t's. */
  lemma InheritKeeps(s: State, base: map<Tid, nat>, t: Tid)
    requires Inv(s, base) && Runs(s, t) && s.owner.Some? && s.owner != Some(t)
    ensures var s1 := Inherit(s, t);
            && Inv(s1, base) && s1 == s.(priority := s1.priority) && s1.priority[t] == base[t]
            && s1.priority[s.owner.value] <= s1.priority[t]
  {
    hide Distinct;
    assert forall i :: 0 <= i < |s.waiters| ==> s.waiters[i] in s.waiters;
  }

  lemma SuspendKeeps(s: State, base: map<Tid, nat>, t: Tid)
    requires Inv(s, base) && Runs(s, t) && s.owner.Some? && s.owner != Some(t)
    ensures Inv(Suspend(Inherit(s, t), t), base)
  {
    InheritKeeps(s, base, t);
    QueueKeeps(Inherit(s, t), base, t);
  }

  /** Queueing a thread that is no more urgent than the owner. */
  lemma QueueKeeps(s: State, base: map<Tid, nat>, t: Tid)
    requires Inv(s, base) && Runs(s, t) && s.owner.Some? && s.owner != Some(t)
    requires s.priority[s.owner.value] <= s.priority[t]
    ensures Inv(Suspend(s, t), base)
  {
    QueuedProps(s.flag, s.waiters, s.priority, t);
    QueuedInTurn(s.flag, s.waiters, s.priority, s.since, s.clock, t);
    hide Queued, Distinct, Sorted, Stamped, InTurn;
  }

  lemma TimeoutKeeps(s: State, base: map<Tid, nat>, w: Tid)
    requires Inv(s, base) && w in s.waiters
    ensures Inv(Timeout(s, w), base)
    ensures Gone(s.waiters, Timeout(s, w).waiters, w) && Return(Timeout(s, w), w).1 == ETIMEOUT
  {
    EraseProps(s.waiters, w);
    EraseDistinct(s.waiters, w);
    ErasedInTurn(s.flag, s.waiters, s.priority, s.since, s.clock, w);
    if s.flag == PRIO {
      EraseSorted(s.waiters, s.priority, w);
    }
    hide Erase, Distinct;
  }

  lemma ReturnKeeps(s: State, base: map<Tid, nat>, t: Tid)
    requires Inv(s, base) && t in s.pending
    ensures Inv(Return(s, t).0, base)
    ensures Return(s, t).1 == EOK ==> s.owner == Some(t) && s.hold == 1
  {
  }

  /** The state right after a hand-over: the new owner inherits from the threads still waiting exactly when
      none of them is more urgent than itself, which a priority-sorted list guarantees. */
  lemma HandOverInherits(s: State, base: map<Tid, nat>, t: Tid)
    requires Inv(s, base) && t in base && s.owner == Some(t) && s.hold == 1 && s.waiters != []
    ensures var s' := Release(s, t).0;
            && s'.owner == Some(s.waiters[0])
            && (forall w :: w in s'.waiters ==> w in s'.priority) && s.waiters[0] in s'.priority
            && (Inherited(s') <==> forall j :: 1 <= j < |s.waiters| ==> base[s.waiters[0]] <= base[s.waiters[j]])
            && (s.flag == PRIO ==> Inherited(s'))
  {
    var s', l := Release(s, t).0, s.waiters;
    Behead(l);
    forall j | 0 <= j < |l| ensures l[j] in base && s'.priority[l[j]] == base[l[j]] {
      assert l[j] in l;
    }
    assert forall j :: 1 <= j < |l| ==> l[1..][j - 1] == l[j];
    if Inherited(s') {
      forall j | 1 <= j < |l| ensures base[l[0]] <= base[l[j]] {
        assert l[1..][j - 1] in s'.waiters;
      }
    }
    if s.flag == PRIO {
      forall j | 1 <= j < |l| ensures base[l[0]] <= base[l[j]] {
        assert s.priority[l[0]] <= s.priority[l[j]];
        assert s.priority[l[0]] == base[l[0]] && s.priority[l[j]] == base[l[j]];
      }
    }
  }

  lemma ReleaseKeeps(s: State, base: map<Tid, nat>, t: Tid)
    requires Inv(s, base) && Runs(s, t)
    ensures Inv(Release(s, t).0, base)
    ensures Release(s, t).1 == EOK <==> s.owner == Some(t)
    ensures s.owner == Some(t) && s.hold == 1 ==> Release(s, t).0.priority[t] == base[t]
  {
    if s.owner == Some(t) && s.hold == 1 {
      var s' := Release(s, t).0;
      if s.waiters != [] {
        Behead(s.waiters);
        HandOverInherits(s, base, t);
        SortedTail(s, base, s'.priority);
        TailInTurn(s.flag, s.waiters, s.priority, s'.priority, s.since, s.clock);
      }
      hide Distinct;
    }
  }

  lemma SortedTail(s: State, base: map<Tid, nat>, priority: map<Tid, nat>)
    requires Inv(s, base) && s.waiters != [] && priority.Keys == base.Keys
    requires forall w :: w in s.waiters ==> priority[w] == s.priority[w]
    ensures (forall w :: w in s.waiters[1..] ==> w in priority) && (s.flag == PRIO ==> Sorted(s.waiters[1..], priority))
  {
    var l := s.waiters;
    Behead(l);
    assert forall j :: 0 <= j < |l| ==> l[j] in l;
    assert forall j :: 0 <= j < |l| - 1 ==> l[1..][j] == l[j + 1];
  }

  // ---------------------------------------------------------------- runs

  datatype Step = TakeStep(t: Tid, time: int) | ReleaseStep(t: Tid) | TimeoutStep(t: Tid) | ReturnStep(t: Tid)

  /** The steps that are possible in a state; a waiting thread can only time out. */
  ghost predicate Possible(s: State, st: Step) {
    match st
    case TakeStep(t, _) => Runs(s, t)
    case ReleaseStep(t) => Runs(s, t)
    case TimeoutStep(t) => t in s.waiters
    case ReturnStep(t) => t in s.pending
  }

  ghost function Next(s: State, base: map<Tid, nat>, st: Step): State
    requires Inv(s, base) && Possible(s, st)
  {
    match st
    case TakeStep(t, time) => Take(s, t, time).0
    case ReleaseStep(t) => Release(s, t).0
    case TimeoutStep(t) => Timeout(s, t)
    case ReturnStep(t) => Return(s, t).0
  }

  ghost predicate Run(s: State, base: map<Tid, nat>, steps: seq<Step>, s': State)
    decreases |steps|
  {
    if steps == [] then s' == s
    else Inv(s, base) && Possible(s, steps[0]) && Run(Next(s, base, steps[0]), base, steps[1..], s')
  }

  /** rt_mutex_init */
  function Fresh(flag: Flag, base: map<Tid, nat>): State {
    State(flag, 1, 0, None, 0xff, [], base, map[], map[], 0)
  }

  /** The invariant holds over every interleaving of takes, releases, timeouts and returns: in particular
      the owner of a PRIO mutex is at least as urgent as every thread waiting for it. */
  lemma {:induction false} RunKeeps(s: State, base: map<Tid, nat>, steps: seq<Step>, s': State)
    requires Inv(s, base) && Run(s, base, steps, s')
    ensures Inv(s', base)
    decreases |steps|
  {
    hide Inv, Take, Release, Timeout, Return;
    if steps != [] {
      match steps[0] {
        case TakeStep(t, time) => TakeKeeps(s, base, t, time);
        case ReleaseStep(t) => ReleaseKeeps(s, base, t);
        case TimeoutStep(t) => TimeoutKeeps(s, base, t);
        case ReturnStep(t) => ReturnKeeps(s, base, t);
      }
      RunKeeps(Next(s, base, steps[0]), base, steps[1..], s');
    }
  }

  // ---------------------------------------------------------------- what the callers see

  /** How a take ends: at once with RT_EOK when the mutex is free or already the caller's; otherwise with
      -RT_ETIMEOUT, and nothing changed, if the caller will not wait, and else the caller waits. */
  lemma TakeOutcome(s: State, base: map<Tid, nat>, t: Tid, time: int)
    requires Inv(s, base) && Runs(s, t)
    ensures var (s', r) := Take(s, t, time);
            if s.owner in {None, Some(t)} then r == Some(EOK) && s'.owner == Some(t) && s'.waiters == s.waiters
            else if time == 0 then r == Some(ETIMEOUT) && s' == s
            else r == None && t in s'.waiters && s'.owner == s.owner && s'.hold == s.hold
  {
    if s.owner !in {None, Some(t)} && time != 0 {
      InheritKeeps(s, base, t);
      QueuedProps(s.flag, s.waiters, Inherit(s, t).priority, t);
      hide Queued, Distinct;
    }
  }

  /** A release that is the owner's last hands the mutex to the waiter whose turn it is, and frees it if there is
      none. */
  lemma LastRelease(s: State, base: map<Tid, nat>, t: Tid)
    requires Inv(s, base) && t in base && s.owner == Some(t) && s.hold == 1
    ensures var s' := Release(s, t).0;
            if s.waiters == [] then s'.owner == None && s'.value == 1 && s'.waiters == []
            else exists u :: && NextInTurn(s.flag, s.waiters, s.priority, s.since, u)
                             && s'.owner == Some(u) && s'.value == 0 && Gone(s.waiters, s'.waiters, u)
                             && s'.pending == s.pending[u := EOK] && s'.original == base[u]
  {
    if s.waiters != [] {
      assert s.waiters[0] in s.waiters;
      HeadIsNext(s.flag, s.waiters, s.priority, s.since);
      Behead(s.waiters);
      hide Distinct, Sorted, InTurn, NextInTurn;
      assert s.waiters == [s.waiters[0]] + s.waiters[1..];
    }
  }

  /** What a step adds to the takes of thread t that have returned RT_EOK less its releases that have. */
  ghost function Gain(s: State, base: map<Tid, nat>, st: Step, t: Tid): int
    requires Inv(s, base) && Possible(s, st)
  {
    match st
    case TakeStep(u, time) => if u == t && Take(s, u, time).1 == Some(EOK) then 1 else 0
    case ReturnStep(u) => if u == t && Return(s, u).1 == EOK then 1 else 0
    case ReleaseStep(u) => if u == t && Release(s, u).1 == EOK then -1 else 0
    case TimeoutStep(_) => 0
  }

  /** The takes of thread t that have returned RT_EOK over a run, less its releases that have. */
  ghost function Balance(s: State, base: map<Tid, nat>, steps: seq<Step>, s': State, t: Tid): int
    requires Run(s, base, steps, s')
    decreases |steps|
  {
    if steps == [] then 0 else Gain(s, base, steps[0], t) + Balance(Next(s, base, steps[0]), base, steps[1..], s', t)
  }

  /** n is the balance of thread t: for the owner the hold count, less 1 while its take has still to return, and 0
      for every other thread. */
  ghost predicate Balanced(s: State, t: Tid, n: int) {
    if s.owner == Some(t) then s.hold == n + (if IsWoken(s.pending, t) then 1 else 0) else n == 0
  }

  lemma StepBalanced(s: State, base: map<Tid, nat>, st: Step, t: Tid, n: int)
    requires Inv(s, base) && Possible(s, st) && Balanced(s, t, n)
    ensures Balanced(Next(s, base, st), t, n + Gain(s, base, st, t))
  {
    hide Distinct, Sorted, Stamped, InTurn, Inherited, Queued, Erase;
    if st.ReleaseStep? && s.waiters != [] {
      assert s.waiters[0] in s.waiters;
    }
  }

  lemma {:induction false} RunBalanced(s: State, base: map<Tid, nat>, steps: seq<Step>, s': State, t: Tid, n: int)
    requires Inv(s, base) && Run(s, base, steps, s') && Balanced(s, t, n)
    ensures Balanced(s', t, n + Balance(s, base, steps, s', t))
    decreases |steps|
  {
    hide Inv, Next, Possible, Balanced, Gain;
    if steps != [] {
      StepBalanced(s, base, steps[0], t, n);
      RunKeeps(s, base, [steps[0]], Next(s, base, steps[0]));
      RunBalanced(Next(s, base, steps[0]), base, steps[1..], s', t, n + Gain(s, base, steps[0], t));
    }
  }

  /** Over every run from rt_mutex_init: a thread whose takes exceed its releases owns the mutex, and the hold count
      of an owner that runs is exactly that excess. */
  lemma HoldCounts(flag: Flag, base: map<Tid, nat>, steps: seq<Step>, s: State, t: Tid)
    requires Run(Fresh(flag, base), base, steps, s)
    ensures var n := Balance(Fresh(flag, base), base, steps, s, t);
            && n >= 0 && (n > 0 ==> s.owner == Some(t))
            && (Runs(s, t) && s.owner == Some(t) ==> n == s.hold > 0)
  {
    hide Run, Balance;
    FreshInv(flag, base);
    RunKeeps(Fresh(flag, base), base, steps, s);
    RunBalanced(Fresh(flag, base), base, steps, s, t, 0);
    hide Known, Priorities, Inherited, Distinct, Stamped, InTurn, Sorted;
  }

  /** No two threads are inside at once. */
  lemma MutualExclusion(flag: Flag, base: map<Tid, nat>, steps: seq<Step>, s: State, t: Tid, u: Tid)
    requires Run(Fresh(flag, base), base, steps, s) && t != u
    requires Balance(Fresh(flag, base), base, steps, s, t) > 0
    ensures Balance(Fresh(flag, base), base, steps, s, u) == 0
  {
    hide Run, Balance;
    HoldCounts(flag, base, steps, s, t);
    HoldCounts(flag, base, steps, s, u);
  }

  /** A thread that has taken the mutex n times more than it has released it keeps it through n - 1 releases and gives
      it up at the n-th. */
  lemma NthRelease(flag: Flag, base: map<Tid, nat>, steps: seq<Step>, s: State, t: Tid)
    requires Run(Fresh(flag, base), base, steps, s) && Runs(s, t) && Balance(Fresh(flag, base), base, steps, s, t) > 0
    ensures s.owner == Some(t) && s.hold > 0 && (forall w :: w in s.waiters ==> w in s.priority) && Release(s, t).1 == EOK
    ensures Release(s, t).0.owner == Some(t) <==> Balance(Fresh(flag, base), base, steps, s, t) >= 2
  {
    hide Run, Balance;
    HoldCounts(flag, base, steps, s, t);
    FreshInv(flag, base);
    RunKeeps(Fresh(flag, base), base, steps, s);
    hide Distinct, Stamped, InTurn, Sorted, Inherited;
    assert s.waiters != [] ==> s.waiters[0] in s.waiters;
  }

  /** The most urgent priority of the owner itself and of all that have started to wait for it since it became the
      owner, p before the step: a new owner starts with its own. */
  ghost function Urged(s: State, base: map<Tid, nat>, st: Step, p: nat): nat
    requires Inv(s, base) && Possible(s, st) && Inv(Next(s, base, st), base)
  {
    var s' := Next(s, base, st);
    if s'.owner.None? then 0
    else if s'.owner != s.owner then base[s'.owner.value]
    else if st.TakeStep? && Take(s, st.t, st.time).1 == None && base[st.t] < p then base[st.t]
    else p
  }

  /** That is the owner's priority: it inherits from those that start to wait and from nobody else. */
  lemma StepUrged(s: State, base: map<Tid, nat>, st: Step)
    requires Inv(s, base) && Possible(s, st)
    ensures var s' := Next(s, base, st);
            && Inv(s', base)
            && (s'.owner.Some? ==>
                  s'.priority[s'.owner.value] == Urged(s, base, st, if s.owner.Some? then s.priority[s.owner.value] else 0))
  {
    RunKeeps(s, base, [st], Next(s, base, st));
    hide Distinct, Sorted, Stamped, InTurn, Inherited, Queued, Erase;
    match st
    case TakeStep(t, time) => TakeOutcome(s, base, t, time); hide Queues;
    case ReleaseStep(t) =>
      assert s.waiters != [] ==> s.waiters[0] in s.waiters;
    case _ => hide Queues, Agree;
  }

  lemma FreshInv(flag: Flag, base: map<Tid, nat>)
    ensures Inv(Fresh(flag, base), base)
  {
  }

  /** A FIFO mutex may be handed to a thread while a more urgent one goes on waiting. */
  lemma FifoInversion()
    ensures var base := map[0 := 5, 1 := 7, 2 := 3];
            var s := State(FIFO, 0, 1, Some(0), 5, [1, 2], map[0 := 3, 1 := 7, 2 := 3], map[], map[1 := 0, 2 := 1], 2);
            Inv(s, base) && !Inherited(Release(s, 0).0)
  {
    var base := map[0 := 5, 1 := 7, 2 := 3];
    var s := State(FIFO, 0, 1, Some(0), 5, [1, 2], map[0 := 3, 1 := 7, 2 := 3], map[], map[1 := 0, 2 := 1], 2);
    assert Inv(s, base);
    hide Inv, Release, Inherited;
    HandOverInherits(s, base, 0);
    assert base[s.waiters[1]] < base[s.waiters[0]];
  }
}
