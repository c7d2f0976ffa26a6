/** Timers as src/timer.c promises them, on a plain list: wraparound order, insertion behind equal
    timeouts, and the timers that one rt_timer_check fires. */
module TimerQueue {
  import opened Basics

  const WORD := 0x1_0000_0000
  /** RT_TICK_MAX / 2 */
  const HALF := 0x7fff_ffff

  type Tick = x: int | 0 <= x < WORD
  type Id = nat

  /** a - b in 32 bits */
  function Ahead(a: Tick, b: Tick): Tick {
    if a >= b then a - b else a - b + WORD
  }

  lemma AheadIsDifference(a: Tick, b: Tick)
    ensures Ahead(a, b) == (a - b) % WORD
  {
    if a < b {
      assert (a - b) % WORD == (a - b + WORD) % WORD;
    }
  }

  predicate InWindow(base: Tick, t: Tick) {
    Ahead(t, base) < HALF
  }

  /** The comparison at which the search for a place stops. */
  predicate Later(a: Tick, b: Tick) {
    0 < Ahead(a, b) < HALF
  }

  /** Inside a half-range window the 32-bit comparison is the order of the distances from its base. */
  lemma WindowOrder(base: Tick, a: Tick, b: Tick)
    requires InWindow(base, a) && InWindow(base, b)
    ensures Ahead(a, b) < HALF <==> Ahead(b, base) <= Ahead(a, base)
    ensures Later(a, b) <==> Ahead(b, base) < Ahead(a, base)
  {
  }

  datatype Timer = Timer(timeout: Tick, initTick: Tick, periodic: bool, active: bool)

  type Timers = map<Id, Timer>

  /** The timers and the list of the started ones. */
  datatype Queue = Queue(list: seq<Id>, timers: Timers)

  ghost predicate Known(s: seq<Id>, ts: Timers) {
    forall i :: 0 <= i < |s| ==> s[i] in ts
  }

  /** In wraparound order no timer is after a later one in the list. */
  ghost predicate Sorted(s: seq<Id>, ts: Timers)
    requires Known(s, ts)
  {
    forall i, j :: 0 <= i < j < |s| ==> Ahead(ts[s[j]].timeout, ts[s[i]].timeout) < HALF
  }

  ghost predicate Windowed(base: Tick, s: seq<Id>, ts: Timers)
    requires Known(s, ts)
  {
    forall i :: 0 <= i < |s| ==> InWindow(base, ts[s[i]].timeout)
  }

  /** Started timers are listed once each; RT_TIMER_FLAG_ACTIVATED says which. */
  ghost predicate Valid(q: Queue) {
    && Known(q.list, q.timers) && Distinct(q.list) && Sorted(q.list, q.timers)
    && forall t :: t in q.timers ==> (q.timers[t].active <==> t in q.list)
  }

  /** _rt_timer_init: a new timer, not started */
  function Init(q: Queue, t: Id, time: Tick, periodic: bool): Queue {
    Queue(q.list, q.timers[t := Timer(0, time, periodic, false)])
  }

  lemma InitValid(q: Queue, t: Id, time: Tick, periodic: bool)
    requires Valid(q) && t !in q.timers
    ensures Valid(Init(q, t, time, periodic))
    ensures var q' := Init(q, t, time, periodic);
            && q'.timers.Keys == q.timers.Keys + {t} && q'.list == q.list && t !in q'.list
            && q'.timers[t].initTick == time && q'.timers[t].periodic == periodic && !q'.timers[t].active
    ensures forall x :: x in q.timers ==> Init(q, t, time, periodic).timers[x] == q.timers[x]
  {
    assert forall i :: 0 <= i < |q.list| ==> q.list[i] in q.timers;
  }

  /** How many timers at the front of the list are not later than k. */
  function Place(s: seq<Id>, ts: Timers, k: Tick): (p: nat)
    requires Known(s, ts)
    ensures p <= |s|
  {
    if s == [] || Later(ts[s[0]].timeout, k) then 0 else 1 + Place(s[1..], ts, k)
  }

  /** now + initTick in 32 bits */
  function Timeout(now: Tick, initTick: Tick): Tick {
    if now + initTick < WORD then now + initTick else now + initTick - WORD
  }

  /** rt_timer_start on a plain list */
  function Start(q: Queue, t: Id, now: Tick): Queue
    requires Known(q.list, q.timers) && t in q.timers
  {
    var others := Erase(q.list, t);
    var k := Timeout(now, q.timers[t].initTick);
    Queue(InsertAt(others, Place(others, q.timers, k), t), q.timers[t := q.timers[t].(timeout := k, active := true)])
  }

  /** rt_timer_stop on a plain list */
  function Stop(q: Queue, t: Id): Queue
    requires t in q.timers
  {
    if q.timers[t].active then Queue(Erase(q.list, t), q.timers[t := q.timers[t].(active := false)]) else q
  }

  // ---------------------------------------------------------------- lists

  lemma EraseInsert(s: seq<Id>, p: nat, t: Id)
    requires p <= |s| && t !in s && Distinct(s)
    ensures Erase(InsertAt(s, p, t), t) == s
  {
    InsertDistinct(s, p, t);
    EraseAt(InsertAt(s, p, t), p);
    InsertThenRemove(s, p, t);
  }

  lemma EraseValid(s: seq<Id>, ts: Timers, t: Id)
    requires Known(s, ts) && Distinct(s) && Sorted(s, ts)
    ensures Known(Erase(s, t), ts) && Distinct(Erase(s, t)) && Sorted(Erase(s, t), ts)
  {
    EraseProps(s, t);
    if t in s {
      var i :| 0 <= i < |s| && s[i] == t;
      EraseAt(s, i);
      RemoveAtAt(s, i);
      RemoveDistinct(s, i);
    }
  }

  // ---------------------------------------------------------------- the place of a new timer

  /** What makes p the place of timeout k in the list. */
  ghost predicate Splits(s: seq<Id>, ts: Timers, k: Tick, p: nat)
    requires Known(s, ts)
  {
    && p <= |s|
    && (forall i :: 0 <= i < p ==> Ahead(k, ts[s[i]].timeout) < HALF)
    && (forall i :: p <= i < |s| ==> Later(ts[s[i]].timeout, k))
  }

  /** Everything before the place is due no later than k, everything from it on strictly later. */
  lemma {:induction false} PlaceSplits(s: seq<Id>, ts: Timers, k: Tick, base: Tick)
    requires Known(s, ts) && Sorted(s, ts) && Windowed(base, s, ts) && InWindow(base, k)
    ensures Splits(s, ts, k, Place(s, ts, k))
  {
    if s != [] {
      WindowOrder(base, ts[s[0]].timeout, k);
      WindowOrder(base, k, ts[s[0]].timeout);
      if Later(ts[s[0]].timeout, k) {
        forall i | 0 <= i < |s| ensures Later(ts[s[i]].timeout, k) {
          WindowOrder(base, ts[s[i]].timeout, ts[s[0]].timeout);
          WindowOrder(base, ts[s[i]].timeout, k);
        }
      } else {
        var tail := s[1..];
        assert forall i :: 0 <= i < |tail| ==> tail[i] == s[i + 1];
        PlaceSplits(tail, ts, k, base);
        var p := Place(tail, ts, k);
        forall i | 0 <= i < 1 + p ensures Ahead(k, ts[s[i]].timeout) < HALF {
          assert i > 0 ==> s[i] == tail[i - 1];
        }
        forall i | 1 + p <= i < |s| ensures Later(ts[s[i]].timeout, k) {
          assert s[i] == tail[i - 1];
        }
      }
    }
  }

  /** Only one position splits the list. */
  lemma SplitsUnique(s: seq<Id>, ts: Timers, k: Tick, p: nat, p': nat, base: Tick)
    requires Known(s, ts) && Windowed(base, s, ts) && InWindow(base, k)
    requires Splits(s, ts, k, p) && Splits(s, ts, k, p')
    ensures p == p'
  {
    if p < p' {
      WindowOrder(base, k, ts[s[p]].timeout);
      WindowOrder(base, ts[s[p]].timeout, k);
    } else if p' < p {
      WindowOrder(base, k, ts[s[p']].timeout);
      WindowOrder(base, ts[s[p']].timeout, k);
    }
  }

  lemma InsertSorted(s: seq<Id>, ts: Timers, t: Id, timer: Timer, p: nat)
    requires Known(s, ts) && Sorted(s, ts) && t !in s && Splits(s, ts, timer.timeout, p)
    ensures Known(InsertAt(s, p, t), ts[t := timer]) && Sorted(InsertAt(s, p, t), ts[t := timer])
  {
    InsertAtAt(s, p, t);
    hide InsertAt;
  }

  /** All started timers, and the one about to be, are within half the range from base. */
  ghost predicate StartReady(q: Queue, t: Id, now: Tick, base: Tick)
    requires Known(q.list, q.timers) && t in q.timers
  {
    (forall x :: x in q.list && x != t ==> InWindow(base, q.timers[x].timeout))
    && InWindow(base, Timeout(now, q.timers[t].initTick))
  }

  /** Starting keeps the list sorted, puts the timer behind all timers due no later, and lists it. */
  lemma StartValid(q: Queue, t: Id, now: Tick, base: Tick)
    requires Valid(q) && t in q.timers && StartReady(q, t, now, base)
    ensures Valid(Start(q, t, now))
    ensures var others, k := Erase(q.list, t), Timeout(now, q.timers[t].initTick);
            Splits(others, q.timers, k, Place(others, q.timers, k))
  {
    hide Ahead, Later, InsertAt, Place, Sorted, InWindow, Splits, Distinct;
    var others, k := Erase(q.list, t), Timeout(now, q.timers[t].initTick);
    EraseValid(q.list, q.timers, t);
    EraseProps(q.list, t);
    assert forall i :: 0 <= i < |others| ==> others[i] in q.list;
    PlaceSplits(others, q.timers, k, base);
    var p := Place(others, q.timers, k);
    InsertDistinct(others, p, t);
    InsertSorted(others, q.timers, t, q.timers[t].(timeout := k, active := true), p);
    var s := InsertAt(others, p, t);
    forall x ensures x in s <==> x in q.list || x == t {
      InsertMembers(others, p, t, x);
    }
  }

  /** Stopping takes the timer off the list and clears its flag; the others, and their order, stay. */
  lemma StopValid(q: Queue, t: Id)
    requires Valid(q) && t in q.timers
    ensures Valid(Stop(q, t))
    ensures var q' := Stop(q, t);
            && q'.timers.Keys == q.timers.Keys && !q'.timers[t].active && t !in q'.list
            && q'.timers[t] == q.timers[t].(active := false) && (forall x :: x in q.timers && x != t ==> q'.timers[x] == q.timers[x])
            && (if t in q.list then exists i: nat :: i < |q.list| && q.list[i] == t && q'.list == q.list[..i] + q.list[i + 1..]
                else q'.list == q.list)
  {
    if t in q.list {
      var i :| 0 <= i < |q.list| && q.list[i] == t;
      EraseAt(q.list, i);
      assert RemoveAt(q.list, i) == q.list[..i] + q.list[i + 1..];
    }
    EraseValid(q.list, q.timers, t);
    EraseProps(q.list, t);
  }

  /** Stopping a timer undoes starting it. */
  lemma StopUndoesStart(q: Queue, t: Id, now: Tick)
    requires Valid(q) && t in q.timers && !q.timers[t].active
    ensures Stop(Start(q, t, now), t).list == q.list
  {
    EraseProps(q.list, t);
    EraseInsert(q.list, Place(q.list, q.timers, Timeout(now, q.timers[t].initTick)), t);
  }

  // ---------------------------------------------------------------- firing

  /** The test of rt_timer_check */
  predicate Expired(timer: Timer, now: Tick) {
    Ahead(now, timer.timeout) < HALF
  }

  /** What happens to the first timer of the list when it is due. */
  function FireHead(q: Queue, now: Tick): Queue
    requires Known(q.list, q.timers) && q.list != []
  {
    var t := q.list[0];
    var q' := Queue(q.list[1..], q.timers[t := q.timers[t].(active := false)]);
    if q.timers[t].periodic && q.timers[t].active then Start(q', t, now) else q'
  }

  lemma FireHeadKnown(q: Queue, now: Tick)
    requires Known(q.list, q.timers) && q.list != []
    ensures Known(FireHead(q, now).list, FireHead(q, now).timers)
  {
    var t := q.list[0];
    var q' := Queue(q.list[1..], q.timers[t := q.timers[t].(active := false)]);
  }

  /** The number of due timers at the front. */
  function Due(s: seq<Id>, ts: Timers, now: Tick): (n: nat)
    requires Known(s, ts)
    ensures n <= |s|
  {
    if s == [] || !Expired(ts[s[0]], now) then 0 else 1 + Due(s[1..], ts, now)
  }

  /** A window that holds now, all started timers and the next timeout of the periodic ones, whose
      period is not 0. */
  ghost predicate CheckReady(q: Queue, now: Tick, base: Tick) {
    && Known(q.list, q.timers) && Windowed(base, q.list, q.timers) && InWindow(base, now)
    && forall t :: t in q.list && q.timers[t].periodic ==>
         1 <= q.timers[t].initTick && Ahead(now, base) + q.timers[t].initTick < HALF
  }

  /** The due timers are exactly the first ones. */
  lemma {:induction false} DueExact(s: seq<Id>, ts: Timers, now: Tick, base: Tick)
    requires Known(s, ts) && Sorted(s, ts) && Windowed(base, s, ts) && InWindow(base, now)
    ensures forall i :: 0 <= i < |s| ==> (Expired(ts[s[i]], now) <==> i < Due(s, ts, now))
  {
    if s != [] {
      var tail := s[1..];
      assert forall i :: 0 <= i < |tail| ==> tail[i] == s[i + 1];
      WindowOrder(base, now, ts[s[0]].timeout);
      DueExact(tail, ts, now, base);
      forall i | 0 <= i < |s| ensures Expired(ts[s[i]], now) <==> i < Due(s, ts, now) {
        if i > 0 {
          assert s[i] == tail[i - 1];
          WindowOrder(base, now, ts[s[i]].timeout);
          WindowOrder(base, ts[s[i]].timeout, ts[s[0]].timeout);
        }
      }
    }
  }

  /** A timer restarted from now is not due now. */
  lemma Restarted(now: Tick, initTick: Tick, base: Tick)
    requires InWindow(base, now) && 1 <= initTick && Ahead(now, base) + initTick < HALF
    ensures InWindow(base, Timeout(now, initTick)) && Later(Timeout(now, initTick), now)
    ensures Ahead(Timeout(now, initTick), base) == Ahead(now, base) + initTick
    ensures !(Ahead(now, Timeout(now, initTick)) < HALF)
  {
  }

  function WithoutHead(q: Queue): Queue
    requires Known(q.list, q.timers) && q.list != []
  {
    Queue(q.list[1..], q.timers[q.list[0] := q.timers[q.list[0]].(active := false)])
  }

  lemma SortedTail(s: seq<Id>, ts: Timers, ts': Timers)
    requires s != [] && Known(s, ts) && Sorted(s, ts)
    requires forall i :: 1 <= i < |s| ==> s[i] in ts' && ts'[s[i]] == ts[s[i]]
    ensures Known(s[1..], ts') && Sorted(s[1..], ts')
    ensures forall now :: Due(s[1..], ts', now) == Due(s[1..], ts, now)
  {
    hide Ahead;
    forall now ensures Due(s[1..], ts', now) == Due(s[1..], ts, now) {
      DueFrame(s[1..], ts, ts', now);
    }
  }

  lemma {:induction false} DueFrame(s: seq<Id>, ts: Timers, ts': Timers, now: Tick)
    requires Known(s, ts) && Known(s, ts') && forall i :: 0 <= i < |s| ==> ts'[s[i]] == ts[s[i]]
    ensures Due(s, ts', now) == Due(s, ts, now)
  {
    if s != [] {
      DueFrame(s[1..], ts, ts', now);
    }
  }

  lemma HeadOff(q: Queue, now: Tick, base: Tick)
    requires Valid(q) && q.list != [] && Windowed(base, q.list, q.timers) && InWindow(base, now)
    requires Expired(q.timers[q.list[0]], now)
    ensures var q', n, t := WithoutHead(q), Due(q.list, q.timers, now), q.list[0];
            && Valid(q') && Windowed(base, q'.list, q'.timers) && n >= 1
            && t !in q'.list && (forall x :: x in q'.list <==> x in q.list && x != t)
            && Due(q'.list, q'.timers, now) == n - 1
  {
    hide Sorted, InWindow, Expired, Distinct;
    var q', t := WithoutHead(q), q.list[0];
    Behead(q.list);
    assert forall i :: 1 <= i < |q.list| ==> q.list[i] == q'.list[i - 1] && q'.timers[q.list[i]] == q.timers[q.list[i]];
    SortedTail(q.list, q.timers, q'.timers);
    assert forall i :: 0 <= i < |q'.list| ==> q'.list[i] == q.list[i + 1];
  }

  /** A timer that is not due yet is started behind the due ones. */
  lemma StartBehindDue(q: Queue, t: Id, now: Tick, base: Tick)
    requires Valid(q) && t in q.timers && t !in q.list && StartReady(q, t, now, base)
    requires Windowed(base, q.list, q.timers) && InWindow(base, now) && Later(Timeout(now, q.timers[t].initTick), now)
    ensures var q', n := Start(q, t, now), Due(q.list, q.timers, now);
            && Valid(q') && n <= |q'.list| && q'.list[..n] == q.list[..n] && Due(q'.list, q'.timers, now) == n
            && forall x :: x in q'.list <==> x in q.list || x == t
  {
    hide Sorted, Place, Due, Distinct, InsertAt, Windowed;
    var k, n, q' := Timeout(now, q.timers[t].initTick), Due(q.list, q.timers, now), Start(q, t, now);
    EraseProps(q.list, t);
    StartValid(q, t, now, base);
    var p := Place(q.list, q.timers, k);
    DueExact(q.list, q.timers, now, base);
    DueBefore(q.list, q.timers, now, k, base, n, p);
    InsertAtAt(q.list, p, t);
    forall x ensures x in q'.list <==> x in q.list || x == t {
      InsertMembers(q.list, p, t, x);
    }
    NotDue(now, k);
    DueInsert(q.list, q.timers, q'.timers, now, n, p, t);
  }

  lemma NotDue(now: Tick, k: Tick)
    requires Later(k, now)
    ensures Ahead(now, k) >= HALF
  {
  }

  /** The place of a timeout after now is behind the due timers. */
  lemma DueBefore(s: seq<Id>, ts: Timers, now: Tick, k: Tick, base: Tick, n: nat, p: nat)
    requires Known(s, ts) && Windowed(base, s, ts) && InWindow(base, now) && InWindow(base, k) && Later(k, now)
    requires Splits(s, ts, k, p)
    requires n <= |s| && forall i :: 0 <= i < |s| ==> (Expired(ts[s[i]], now) <==> i < n)
    ensures n <= p
  {
    if p < n {
      WindowOrder(base, now, ts[s[p]].timeout);
      WindowOrder(base, k, now);
      WindowOrder(base, ts[s[p]].timeout, k);
    }
  }

  lemma DueInsert(s: seq<Id>, ts: Timers, ts': Timers, now: Tick, n: nat, p: nat, t: Id)
    requires Known(s, ts) && n <= p <= |s| && n == Due(s, ts, now) && t in ts' && !Expired(ts'[t], now)
    requires forall i :: 0 <= i < |s| ==> s[i] in ts' && ts'[s[i]] == ts[s[i]]
    requires forall i :: 0 <= i < |s| ==> (Expired(ts[s[i]], now) <==> i < n)
    requires Known(InsertAt(s, p, t), ts')
    ensures Due(InsertAt(s, p, t), ts', now) == n && InsertAt(s, p, t)[..n] == s[..n]
  {
    InsertAtAt(s, p, t);
    hide InsertAt, Expired;
    DueIs(InsertAt(s, p, t), ts', now, n);
  }

  /** Firing the first timer: the other due timers are now the first ones, and no more are due. */
  lemma FireHeadStep(q: Queue, now: Tick, base: Tick)
    requires Valid(q) && CheckReady(q, now, base) && q.list != [] && Expired(q.timers[q.list[0]], now)
    ensures var q', n, t := FireHead(q, now), Due(q.list, q.timers, now), q.list[0];
            && Valid(q') && CheckReady(q', now, base)
            && n >= 1 && Due(q'.list, q'.timers, now) == n - 1
            && q'.list[..n - 1] == q.list[1..n]
            && q'.timers == q.timers[t := Fired(q.timers[t], now)]
            && forall x :: x in q'.list <==> x in q.list && (x != t || q.timers[t].periodic)
  {
    hide Sorted, Place, Due, Erase, Distinct;
    var t := q.list[0];
    HeadOff(q, now, base);
    if q.timers[t].periodic {
      Restarted(now, q.timers[t].initTick, base);
      StartBehindDue(WithoutHead(q), t, now, base);
    }
  }

  /** What firing does to a timer itself. */
  function Fired(timer: Timer, now: Tick): Timer {
    if timer.periodic then timer.(timeout := Timeout(now, timer.initTick)) else timer.(active := false)
  }

  /** The queue after the first n timers, each found at the front, have been fired. */
  function FireN(q: Queue, n: nat, now: Tick): Queue
    requires Known(q.list, q.timers)
    decreases n
  {
    if n == 0 || q.list == [] then q
    else
      FireHeadKnown(q, now);
      FireN(FireHead(q, now), n - 1, now)
  }

  /** The started timers that a check fires, and what each becomes. */
  ghost predicate CheckResult(q: Queue, q': Queue, now: Tick)
    requires Known(q.list, q.timers)
  {
    && q'.timers.Keys == q.timers.Keys
    && forall t :: t in q.timers ==>
         && q'.timers[t] == (if t in q.list && Expired(q.timers[t], now) then Fired(q.timers[t], now) else q.timers[t])
         && (t in q'.list <==> t in q.list && (Expired(q.timers[t], now) ==> q.timers[t].periodic))
  }

  lemma CheckCompose(q: Queue, q1: Queue, q': Queue, now: Tick)
    requires Known(q.list, q.timers) && Known(q1.list, q1.timers) && CheckResult(q1, q', now)
    requires q.list != [] && Expired(q.timers[q.list[0]], now)
    requires q1.timers == q.timers[q.list[0] := Fired(q.timers[q.list[0]], now)]
    requires forall x :: x in q1.list <==> x in q.list && (x != q.list[0] || q.timers[x].periodic)
    requires q.timers[q.list[0]].periodic ==> !Expired(q1.timers[q.list[0]], now)
    ensures CheckResult(q, q', now)
  {
    hide Expired, Timeout;
    var t0 := q.list[0];
    forall t | t in q.timers
      ensures q'.timers[t] == (if t in q.list && Expired(q.timers[t], now) then Fired(q.timers[t], now) else q.timers[t])
      ensures t in q'.list <==> t in q.list && (Expired(q.timers[t], now) ==> q.timers[t].periodic)
    {
      assert t in q1.timers;
      assert t != t0 ==> q1.timers[t] == q.timers[t];
      assert t0 in q.list;
    }
  }

  lemma NoneDue(q: Queue, now: Tick)
    requires Known(q.list, q.timers) && forall i :: 0 <= i < |q.list| ==> !Expired(q.timers[q.list[i]], now)
    ensures CheckResult(q, q, now) && forall t :: t in q.list ==> !Expired(q.timers[t], now)
  {
    hide Expired, Fired;
  }

  /** One rt_timer_check: the due timers, taken one by one from the front, are all fired, once each;
      one-shot timers are then stopped, periodic ones started anew from now; nothing else changes,
      and no started timer is due any more. */
  lemma {:induction false} FireAll(q: Queue, now: Tick, base: Tick)
    requires Valid(q) && CheckReady(q, now, base)
    ensures var q' := FireN(q, Due(q.list, q.timers, now), now);
            && Valid(q') && CheckReady(q', now, base) && CheckResult(q, q', now)
            && forall t :: t in q'.list ==> !Expired(q'.timers[t], now)
    decreases Due(q.list, q.timers, now)
  {
    hide Sorted, Place, Erase, Expired, FireHead, Ahead, CheckResult;
    DueExact(q.list, q.timers, now, base);
    var n := Due(q.list, q.timers, now);
    if n > 0 {
      var t := q.list[0];
      FireHeadStep(q, now, base);
      var q1 := FireHead(q, now);
      FireAll(q1, now, base);
      if q.timers[t].periodic {
        RestartedNotDue(q.timers[t], now, base);
      }
      CheckCompose(q, q1, FireN(q, n, now), now);
    } else {
      NoneDue(q, now);
    }
  }

  lemma RestartedNotDue(timer: Timer, now: Tick, base: Tick)
    requires timer.periodic && InWindow(base, now) && 1 <= timer.initTick && Ahead(now, base) + timer.initTick < HALF
    ensures !Expired(Fired(timer, now), now)
  {
    Restarted(now, timer.initTick, base);
  }

  /** The queue after i of the due timers have been fired: the rest of them are at the front. */
  lemma {:induction false} FireSome(q: Queue, i: nat, now: Tick, base: Tick)
    requires Valid(q) && CheckReady(q, now, base) && i <= Due(q.list, q.timers, now)
    ensures var q', n := FireN(q, i, now), Due(q.list, q.timers, now);
            && Valid(q') && CheckReady(q', now, base) && Due(q'.list, q'.timers, now) == n - i
            && |q'.list| >= n - i && q'.list[..n - i] == q.list[i..n]
    decreases i
  {
    hide Sorted, Place, Erase, CheckReady, Due;
    if i > 0 {
      var n := Due(q.list, q.timers, now);
      DueFront(q.list, q.timers, now);
      FireHeadStep(q, now, base);
      FireSome(FireHead(q, now), i - 1, now, base);
      var q1, q' := FireHead(q, now), FireN(q, i, now);
      assert q'.list[..n - i] == q1.list[i - 1..n - 1] == q1.list[..n - 1][i - 1..] == q.list[1..n][i - 1..] == q.list[i..n];
    }
  }

  lemma DueFront(s: seq<Id>, ts: Timers, now: Tick)
    requires Known(s, ts)
    ensures Due(s, ts, now) > 0 <==> s != [] && Expired(ts[s[0]], now)
  {
  }

  lemma {:induction false} FireOneMore(q: Queue, i: nat, now: Tick, base: Tick)
    requires Valid(q) && CheckReady(q, now, base) && i < Due(q.list, q.timers, now)
    ensures FireN(q, i, now).list != [] && FireN(q, i, now).list[0] == q.list[i]
    ensures Known(FireN(q, i, now).list, FireN(q, i, now).timers)
    ensures FireN(q, i + 1, now) == FireHead(FireN(q, i, now), now)
    decreases i
  {
    hide Sorted, Place, Erase, CheckReady, Due;
    FireSome(q, i, now, base);
    assert FireN(q, i, now).list[..Due(q.list, q.timers, now) - i][0] == q.list[i];
    if i > 0 {
      DueFront(q.list, q.timers, now);
      FireHeadStep(q, now, base);
      FireOneMore(FireHead(q, now), i - 1, now, base);
    }
  }

  lemma {:induction false} DueIs(s: seq<Id>, ts: Timers, now: Tick, n: nat)
    requires Known(s, ts) && n <= |s|
    requires forall i :: 0 <= i < n ==> Expired(ts[s[i]], now)
    requires n < |s| ==> !Expired(ts[s[n]], now)
    ensures Due(s, ts, now) == n
  {
    if n > 0 {
      assert forall i :: 0 <= i < |s| - 1 ==> s[1..][i] == s[i + 1];
      DueIs(s[1..], ts, now, n - 1);
    }
  }

  // ---------------------------------------------------------------- runs

  /** Between ticks: every started timer is due after now and less than half the range away, and a
      periodic one does not have period 0. */
  ghost predicate Armed(q: Queue, now: Tick) {
    && Known(q.list, q.timers)
    && forall t :: t in q.list ==>
         && 1 <= Ahead(q.timers[t].timeout, now) < HALF
         && (q.timers[t].periodic ==> 1 <= q.timers[t].initTick < HALF)
  }

  /** Starting a timer with a delay from 1 up to half the range keeps the queue armed. */
  lemma ArmedStart(q: Queue, t: Id, now: Tick)
    requires Valid(q) && t in q.timers && Armed(q, now) && 1 <= q.timers[t].initTick < HALF
    ensures StartReady(q, t, now, now) && Valid(Start(q, t, now)) && Armed(Start(q, t, now), now)
  {
    StartValid(q, t, now, now);
    EraseProps(q.list, t);
    var others, k := Erase(q.list, t), Timeout(now, q.timers[t].initTick);
    forall x | x in Start(q, t, now).list ensures x == t || x in q.list {
      InsertMembers(others, Place(others, q.timers, k), t, x);
    }
  }

  /** A timer just initialised is not waited for. */
  lemma ArmedInit(q: Queue, t: Id, time: Tick, periodic: bool, now: Tick)
    requires Valid(q) && t !in q.timers && Armed(q, now)
    ensures Valid(Init(q, t, time, periodic)) && Armed(Init(q, t, time, periodic), now)
  {
    InitValid(q, t, time, periodic);
  }

  lemma ArmedStop(q: Queue, t: Id, now: Tick)
    requires Valid(q) && t in q.timers && Armed(q, now)
    ensures Valid(Stop(q, t)) && Armed(Stop(q, t), now)
  {
    StopValid(q, t);
    EraseProps(q.list, t);
  }

  /** One tick later the next tick is the base of a window for everything. */
  lemma ArmedTick(q: Queue, now: Tick)
    requires Armed(q, now)
    ensures CheckReady(q, Timeout(now, 1), Timeout(now, 1))
    ensures Timeout(now, 1) == (now + 1) % WORD
    ensures forall t :: t in q.list ==> (Expired(q.timers[t], Timeout(now, 1)) <==> q.timers[t].timeout == Timeout(now, 1))
  {
    var next := Timeout(now, 1);
    forall i | 0 <= i < |q.list| ensures InWindow(next, q.timers[q.list[i]].timeout) {
      assert q.list[i] in q.list;
    }
  }

  lemma ArmedAgain(q: Queue, q': Queue, now: Tick)
    requires Valid(q) && CheckReady(q, now, now) && CheckReady(q', now, now) && CheckResult(q, q', now)
    requires forall t :: t in q'.list ==> !Expired(q'.timers[t], now)
    ensures Armed(q', now)
  {
    forall t | t in q'.list ensures 1 <= Ahead(q'.timers[t].timeout, now) < HALF {
      var i :| 0 <= i < |q'.list| && q'.list[i] == t;
      assert InWindow(now, q'.timers[q'.list[i]].timeout);
    }
  }

  lemma PrefixDistinct(q: Queue, n: nat)
    requires Valid(q) && n <= |q.list|
    ensures Distinct(q.list[..n])
  {
  }
}
