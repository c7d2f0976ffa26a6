/** Runs of the timers of src/timer.c: timers are initialised, started and stopped while the tick goes on, and
    each fires as many ticks after its start as it was told. */
module TimerRuns {
  import opened Basics
  import opened TimerQueue

  datatype State = State(q: Queue, now: Tick)

  datatype Step = InitStep(t: Id, time: Tick, periodic: bool) | StartStep(t: Id) | StopStep(t: Id) | TickStep

  ghost predicate Ok(s: State) {
    Valid(s.q) && Armed(s.q, s.now)
  }

  predicate Possible(s: State, st: Step) {
    match st
    case InitStep(t, _, _) => t !in s.q.timers
    case StartStep(t) => t in s.q.timers && 1 <= s.q.timers[t].initTick < HALF
    case StopStep(t) => t in s.q.timers
    case TickStep => true
  }

  /** rt_tick_increase, as far as timers go */
  function Ticked(s: State): State
    requires Known(s.q.list, s.q.timers)
  {
    var now := Timeout(s.now, 1);
    State(FireN(s.q, Due(s.q.list, s.q.timers, now), now), now)
  }

  function Next(s: State, st: Step): State
    requires Known(s.q.list, s.q.timers) && Possible(s, st)
  {
    match st
    case InitStep(t, time, periodic) => State(Init(s.q, t, time, periodic), s.now)
    case StartStep(t) => State(Start(s.q, t, s.now), s.now)
    case StopStep(t) => State(Stop(s.q, t), s.now)
    case TickStep => Ticked(s)
  }

  ghost predicate Run(s: State, steps: seq<Step>, s': State)
    decreases |steps|
  {
    if steps == [] then s' == s else Ok(s) && Possible(s, steps[0]) && Run(Next(s, steps[0]), steps[1..], s')
  }

  function Ticks(steps: seq<Step>): nat {
    if steps == [] then 0 else (if steps[0].TickStep? then 1 else 0) + Ticks(steps[1..])
  }

  predicate Touches(st: Step, t: Id) {
    st == StartStep(t) || st == StopStep(t)
  }

  lemma TickKeeps(s: State)
    requires Ok(s)
    ensures Ok(Ticked(s)) && CheckResult(s.q, Ticked(s).q, Ticked(s).now)
  {
    hide Valid, Armed, CheckReady, CheckResult, Expired, Due, FireN, Timeout;
    ArmedTick(s.q, s.now);
    var now := Timeout(s.now, 1);
    OkKnown(s);
    FireAll(s.q, now, now);
    ArmedAgain(s.q, Ticked(s).q, now);
  }

  lemma OkKnown(s: State)
    requires Ok(s)
    ensures Known(s.q.list, s.q.timers)
  {
  }

  lemma StepKeeps(s: State, st: Step)
    requires Ok(s) && Possible(s, st)
    ensures Ok(Next(s, st))
  {
    hide Valid, Armed, Ticked, Start, Stop, Init;
    match st
    case InitStep(t, time, periodic) => ArmedInit(s.q, t, time, periodic, s.now);
    case StartStep(t) => ArmedStart(s.q, t, s.now);
    case StopStep(t) => ArmedStop(s.q, t, s.now);
    case TickStep => TickKeeps(s);
  }

  /** A started timer goes on waiting, one tick less with every tick, until one tick is left; then the next
      tick is the one that it expires at. */
  lemma Waits(s: State, st: Step, t: Id)
    requires Ok(s) && Possible(s, st) && t in s.q.list && !Touches(st, t)
    ensures t in s.q.timers && 1 <= Ahead(s.q.timers[t].timeout, s.now)
    ensures Expired(s.q.timers[t], Timeout(s.now, 1)) <==> Ahead(s.q.timers[t].timeout, s.now) == 1
    ensures (st.TickStep? ==> Ahead(s.q.timers[t].timeout, s.now) > 1) ==>
              var s' := Next(s, st);
              && t in s'.q.list && t in s'.q.timers && s'.q.timers[t] == s.q.timers[t]
              && Ahead(s.q.timers[t].timeout, s'.now) == Ahead(s.q.timers[t].timeout, s.now) - if st.TickStep? then 1 else 0
  {
    hide FireN, Due, Place, Sorted, Distinct, InsertAt, Erase;
    match st {
      case InitStep(_, _, _) =>
      case StartStep(u) =>
        EraseProps(s.q.list, u);
        InsertMembers(Erase(s.q.list, u), Place(Erase(s.q.list, u), s.q.timers, Timeout(s.now, s.q.timers[u].initTick)), u, t);
      case StopStep(u) =>
        EraseProps(s.q.list, u);
      case TickStep =>
        TickKeeps(s);
    }
  }

  /** Over every run: a timer fires neither early nor late, whatever other timers do.  As long as it is neither
      started again nor stopped, it waits for as many ticks as were left, and the last of them fires it. */
  lemma {:induction false} FiresOnTime(s: State, steps: seq<Step>, s': State, t: Id)
    requires Ok(s) && Run(s, steps, s') && t in s.q.list && t in s.q.timers
    requires forall st :: st in steps ==> !Touches(st, t)
    requires Ticks(steps) < Ahead(s.q.timers[t].timeout, s.now)
    ensures Ok(s') && t in s'.q.list && t in s'.q.timers && s'.q.timers[t] == s.q.timers[t]
    ensures Ahead(s.q.timers[t].timeout, s'.now) == Ahead(s.q.timers[t].timeout, s.now) - Ticks(steps)
    ensures Expired(s'.q.timers[t], Timeout(s'.now, 1)) <==> Ticks(steps) + 1 == Ahead(s.q.timers[t].timeout, s.now)
    decreases |steps|
  {
    hide Ok, Next, Ahead, Expired;
    if steps == [] {
      Waits(s, TickStep, t);
    } else {
      var st := steps[0];
      assert st in steps && forall x :: x in steps[1..] ==> x in steps;
      OkKnown(s);
      StepKeeps(s, st);
      Waits(s, st, t);
      FiresOnTime(Next(s, st), steps[1..], s', t);
    }
  }

  /** A timer started with delay d waits through any d - 1 ticks, and the d-th fires it. */
  lemma StartedFires(s: State, t: Id, steps: seq<Step>, s': State)
    requires Ok(s) && Possible(s, StartStep(t)) && Run(Next(s, StartStep(t)), steps, s')
    requires forall st :: st in steps ==> !Touches(st, t)
    requires Ticks(steps) < s.q.timers[t].initTick
    ensures Ok(s') && t in s'.q.list && t in s'.q.timers
    ensures Expired(s'.q.timers[t], Timeout(s'.now, 1)) <==> Ticks(steps) + 1 == s.q.timers[t].initTick
    ensures CheckResult(s'.q, Ticked(s').q, Ticked(s').now)
  {
    var s1 := Next(s, StartStep(t));
    StepKeeps(s, StartStep(t));
    var others, k := Erase(s.q.list, t), Timeout(s.now, s.q.timers[t].initTick);
    InsertMembers(others, Place(others, s.q.timers, k), t, t);
    assert Ahead(k, s.now) == s.q.timers[t].initTick;
    hide Ok, Run, Expired, Ahead, Timeout;
    FiresOnTime(s1, steps, s', t);
    TickKeeps(s');
  }

  /** When the tick comes that a timer expires at, a periodic timer is started again for its whole period, and any other
      is stopped. */
  lemma FiresAgain(s: State, t: Id)
    requires Ok(s) && t in s.q.list && t in s.q.timers && Expired(s.q.timers[t], Timeout(s.now, 1))
    ensures var s' := Ticked(s);
            && t in s'.q.timers && s'.q.timers[t].periodic == s.q.timers[t].periodic && s'.q.timers[t].initTick == s.q.timers[t].initTick
            && if s.q.timers[t].periodic then t in s'.q.list && Ahead(s'.q.timers[t].timeout, s'.now) == s.q.timers[t].initTick
               else t !in s'.q.list && !s'.q.timers[t].active
  {
    TickKeeps(s);
    OkKnown(s);
    RestartAhead(Timeout(s.now, 1), s.q.timers[t].initTick);
    hide Ticked, Sorted, Timeout, Expired, Ahead;
  }

  lemma RestartAhead(now: Tick, initTick: Tick)
    ensures Ahead(Timeout(now, initTick), now) == initTick
  {
  }

  lemma {:induction false} RunKeeps(s: State, steps: seq<Step>, s': State)
    requires Ok(s) && Run(s, steps, s')
    ensures Ok(s')
    decreases |steps|
  {
    hide Ok, Next;
    if steps != [] {
      OkKnown(s);
      StepKeeps(s, steps[0]);
      RunKeeps(Next(s, steps[0]), steps[1..], s');
    }
  }

  /** Before any timer: whatever is initialised, started, stopped and ticked from here on keeps the list sorted
      and the timers within their window. */
  lemma FromNothing(now: Tick, steps: seq<Step>, s: State)
    requires Run(State(Queue([], map[]), now), steps, s)
    ensures Ok(s)
  {
    RunKeeps(State(Queue([], map[]), now), steps, s);
  }
}
