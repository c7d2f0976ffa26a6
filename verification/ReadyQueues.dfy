/** The scheduler's global tables, src/scheduler.c, and the thread operations of src/thread.c that
    change them: the bitmap always says which ready lists have threads. */
module ReadyQueues {
  import opened Basics
  import opened Bitmap
  import opened Scheduling

  // ---------------------------------------------------------------- the bitmap

  predicate NonEmpty(ready: seq<seq<Tid>>, p: nat) {
    p < |ready| && ready[p] != []
  }

  /** Up to 32 priorities: one word */
  ghost predicate OneLevel(group: Word, ready: seq<seq<Tid>>) {
    forall p :: 0 <= p < 32 ==> (Bit(group, p) <==> NonEmpty(ready, p))
  }

  /** One byte of the ready table, for eight priorities */
  ghost predicate ByteOk(entry: Word, ready: seq<seq<Tid>>, n: nat) {
    forall m :: 0 <= m < 32 ==> (Bit(entry, m) <==> m < 8 && NonEmpty(ready, 8 * n + m))
  }

  ghost predicate GroupOk(group: Word, table: seq<Word>) {
    |table| == 32 && forall n :: 0 <= n < 32 ==> (Bit(group, n) <==> table[n] != 0)
  }

  ghost predicate TwoLevel(group: Word, table: seq<Word>, ready: seq<seq<Tid>>) {
    GroupOk(group, table) && forall n :: 0 <= n < 32 ==> ByteOk(table[n], ready, n)
  }

  /** Every bit is set exactly when its priority's list has a thread. */
  ghost predicate IndexOk(group: Word, table: seq<Word>, ready: seq<seq<Tid>>) {
    && |ready| <= 256
    && if |ready| <= 32 then OneLevel(group, ready) else TwoLevel(group, table, ready)
  }

  /** number, number_mask and high_mask place the priority. */
  predicate MaskOk(levels: nat, th: Thread) {
    && th.priority < levels <= 256
    && if levels <= 32 then th.numberMask == Mask(th.priority)
       else th.number == th.priority / 8 && th.numberMask == Mask(th.number) && th.highMask == Mask(th.priority % 8)
  }

  /** The thread with its priority set and its masks recomputed. */
  function WithPriority(levels: nat, th: Thread, p: nat): (th': Thread)
    requires p < levels <= 256
    ensures MaskOk(levels, th')
  {
    if levels <= 32 then th.(priority := p, numberMask := Mask(p))
    else th.(priority := p, number := p / 8, numberMask := Mask(p / 8), highMask := Mask(p % 8))
  }

  /** Only list p changed, and it now has threads or not as `has` says. */
  ghost predicate OnlyList(ready: seq<seq<Tid>>, ready': seq<seq<Tid>>, p: nat, has: bool) {
    && |ready'| == |ready| && p < |ready|
    && (ready'[p] != [] <==> has)
    && forall q :: 0 <= q < |ready| && q != p ==> (ready'[q] == [] <==> ready[q] == [])
  }

  lemma OneLevelUpdate(group: Word, ready: seq<seq<Tid>>, ready': seq<seq<Tid>>, p: nat, has: bool)
    requires OneLevel(group, ready) && OnlyList(ready, ready', p, has) && |ready| <= 32
    ensures OneLevel(if has then Or(group, Mask(p)) else AndNot(group, Mask(p)), ready')
  {
    hide Mask, Bit, Or, AndNot;
    var group' := if has then Or(group, Mask(p)) else AndNot(group, Mask(p));
    forall q | 0 <= q < 32 ensures Bit(group', q) <==> NonEmpty(ready', q) {
      SetClear(group, p, q);
    }
  }

  lemma ByteUpdate(entry: Word, ready: seq<seq<Tid>>, ready': seq<seq<Tid>>, n: nat, p: nat, has: bool)
    requires ByteOk(entry, ready, n) && OnlyList(ready, ready', p, has) && n == p / 8
    ensures ByteOk(if has then Or(entry, Mask(p % 8)) else AndNot(entry, Mask(p % 8)), ready', n)
  {
    hide Mask, Bit, Or, AndNot;
    var entry' := if has then Or(entry, Mask(p % 8)) else AndNot(entry, Mask(p % 8));
    forall m | 0 <= m < 32 ensures Bit(entry', m) <==> m < 8 && NonEmpty(ready', 8 * n + m) {
      SetClear(entry, p % 8, m);
    }
  }

  lemma GroupSet(group: Word, table: seq<Word>, n: nat, entry: Word)
    requires GroupOk(group, table) && n < 32 && entry != 0
    ensures GroupOk(Or(group, Mask(n)), table[n := entry])
  {
    hide Mask, Bit, Or, AndNot;
    var group', table' := Or(group, Mask(n)), table[n := entry];
    forall m | 0 <= m < 32 ensures Bit(group', m) <==> table'[m] != 0 {
      SetClear(group, n, m);
    }
  }

  lemma GroupClear(group: Word, table: seq<Word>, n: nat, a: Word)
    requires GroupOk(group, table) && n < 32
    ensures var entry := AndNot(table[n], a);
            GroupOk(if entry == 0 then AndNot(group, Mask(n)) else group, table[n := entry])
  {
    AndNotZero(table[n], a);
    hide Mask, Bit, Or, AndNot;
    var entry := AndNot(table[n], a);
    var group', table' := if entry == 0 then AndNot(group, Mask(n)) else group, table[n := entry];
    forall m | 0 <= m < 32 ensures Bit(group', m) <==> table'[m] != 0 {
      SetClear(group, n, m);
    }
  }

  lemma AndNotZero(w: Word, a: Word)
    ensures AndNot(w, a) != 0 ==> w != 0
    ensures AndNot(w, 0) == w
  {
  }

  lemma OtherByte(entry: Word, ready: seq<seq<Tid>>, ready': seq<seq<Tid>>, n: nat, p: nat, has: bool)
    requires ByteOk(entry, ready, n) && OnlyList(ready, ready', p, has) && n != p / 8
    ensures ByteOk(entry, ready', n)
  {
    hide Bit;
    forall m | 0 <= m < 32 ensures Bit(entry, m) <==> m < 8 && NonEmpty(ready', 8 * n + m) {
      assert m < 8 ==> 8 * n + m != p;
    }
  }

  lemma ByteNonzero(entry: Word, ready: seq<seq<Tid>>, n: nat, p: nat)
    requires ByteOk(entry, ready, n) && n == p / 8 && NonEmpty(ready, p)
    ensures entry != 0
  {
    assert Bit(entry, p % 8) && 8 * n + p % 8 == p;
    NotInZero(p % 8);
  }

  lemma TwoLevelAdd(group: Word, table: seq<Word>, ready: seq<seq<Tid>>, ready': seq<seq<Tid>>, p: nat)
    requires TwoLevel(group, table, ready) && OnlyList(ready, ready', p, true) && |ready| <= 256
    ensures |table| == 32 && TwoLevel(Or(group, Mask(p / 8)), table[p / 8 := Or(table[p / 8], Mask(p % 8))], ready')
  {
    hide Mask, Bit, Or, AndNot, ByteOk, GroupOk;
    var n := p / 8;
    TableSize(group, table);
    var entry := Or(table[n], Mask(p % 8));
    ByteUpdate(table[n], ready, ready', n, p, true);
    ByteNonzero(entry, ready', n, p);
    GroupSet(group, table, n, entry);
    TableUpdate(table, ready, ready', p, true, entry);
  }

  lemma TwoLevelRemove(group: Word, table: seq<Word>, ready: seq<seq<Tid>>, ready': seq<seq<Tid>>, p: nat)
    requires TwoLevel(group, table, ready) && OnlyList(ready, ready', p, false) && |ready| <= 256
    ensures |table| == 32
    ensures var entry := AndNot(table[p / 8], Mask(p % 8));
            TwoLevel(if entry == 0 then AndNot(group, Mask(p / 8)) else group, table[p / 8 := entry], ready')
  {
    hide Mask, Bit, Or, AndNot, ByteOk, GroupOk;
    var n := p / 8;
    TableSize(group, table);
    ByteUpdate(table[n], ready, ready', n, p, false);
    GroupClear(group, table, n, Mask(p % 8));
    TableUpdate(table, ready, ready', p, false, AndNot(table[n], Mask(p % 8)));
  }

  lemma TableSize(group: Word, table: seq<Word>)
    requires GroupOk(group, table)
    ensures |table| == 32
  {
  }

  lemma TableUpdate(table: seq<Word>, ready: seq<seq<Tid>>, ready': seq<seq<Tid>>, p: nat, has: bool, entry: Word)
    requires |table| == 32 && OnlyList(ready, ready', p, has) && p < 256
    requires forall n :: 0 <= n < 32 ==> ByteOk(table[n], ready, n)
    requires ByteOk(entry, ready', p / 8)
    ensures var table' := table[p / 8 := entry]; forall n :: 0 <= n < 32 ==> ByteOk(table'[n], ready', n)
  {
    hide ByteOk, OnlyList;
    var table' := table[p / 8 := entry];
    forall m | 0 <= m < 32 ensures ByteOk(table'[m], ready', m) {
      if m != p / 8 {
        OtherByte(table[m], ready, ready', m, p, has);
      }
    }
  }

  /** Clearing the bits of a thread whose list has become empty. */
  lemma RemovedIndex(group: Word, table: seq<Word>, ready: seq<seq<Tid>>, ready': seq<seq<Tid>>, th: Thread)
    requires IndexOk(group, table, ready) && OnlyList(ready, ready', th.priority, false)
    requires MaskOk(|ready|, th) || (Unmasked(th) && forall q :: 0 <= q < |ready| ==> (ready'[q] == [] <==> ready[q] == []))
    ensures |ready| <= 32 ==> IndexOk(AndNot(group, th.numberMask), table, ready')
    ensures |ready| > 32 ==>
              th.number < |table| && var entry := AndNot(table[th.number], th.highMask);
              IndexOk(if entry == 0 then AndNot(group, th.numberMask) else group, table[th.number := entry], ready')
  {
    hide Mask, Bit, Or, AndNot, ByteOk;
    if MaskOk(|ready|, th) {
      if |ready| > 32 {
        TwoLevelRemove(group, table, ready, ready', th.priority);
      } else {
        OneLevelUpdate(group, ready, ready', th.priority, false);
      }
    } else {
      IndexSame(group, table, ready, ready');
      AndNotZero(group, 0);
      if |ready| > 32 {
        AndNotZero(table[0], 0);
        assert table[0 := table[0]] == table;
      }
    }
  }

  lemma IndexSame(group: Word, table: seq<Word>, ready: seq<seq<Tid>>, ready': seq<seq<Tid>>)
    requires IndexOk(group, table, ready) && |ready'| == |ready|
    requires forall q :: 0 <= q < |ready| ==> (ready'[q] == [] <==> ready[q] == [])
    ensures IndexOk(group, table, ready')
  {
    hide Bit;
    if |ready| > 32 {
      forall n | 0 <= n < 32 ensures ByteOk(table[n], ready', n) {
        assert ByteOk(table[n], ready, n);
      }
    }
  }

  /** The two bit searches find the first non-empty list. */
  lemma SearchExact(group: Word, table: seq<Word>, ready: seq<seq<Tid>>)
    requires IndexOk(group, table, ready)
    ensures group == 0 <==> Highest(ready) == |ready|
    ensures group != 0 && |ready| <= 32 ==> Ffs(group) - 1 == Highest(ready)
    ensures group != 0 && |ready| > 32 ==>
              1 <= Ffs(group) <= |table| && 8 * (Ffs(group) - 1) + Ffs(table[Ffs(group) - 1]) - 1 == Highest(ready)
  {
    hide Bit, Ffs, ByteOk;
    var p := Highest(ready);
    FfsExact(group);
    NoBits(group);
    if |ready| <= 32 {
      if group != 0 {
        assert NonEmpty(ready, Ffs(group) - 1);
      }
      if p < |ready| {
        assert Bit(group, p);
      }
    } else {
      SearchTable(group, table, ready);
    }
  }

  /** The group's bits name the bytes of the table that have a thread. */
  lemma GroupExact(group: Word, table: seq<Word>, ready: seq<seq<Tid>>, n: nat)
    requires TwoLevel(group, table, ready) && n < 32
    ensures Bit(group, n) ==> 1 <= Ffs(table[n]) <= 8 && NonEmpty(ready, 8 * n + Ffs(table[n]) - 1)
    ensures forall p :: p / 8 == n && NonEmpty(ready, p) ==> Bit(group, n) && Ffs(table[n]) - 1 <= p % 8
  {
    hide Bit, Ffs, ByteOk;
    assert ByteOk(table[n], ready, n);
    FfsExact(table[n]);
    if Bit(group, n) {
      ByteBitNonEmpty(table[n], ready, n, Ffs(table[n]) - 1);
    }
    forall p | p / 8 == n && NonEmpty(ready, p) ensures Bit(group, n) && Ffs(table[n]) - 1 <= p % 8 {
      NonEmptyByteBit(table[n], ready, n, p);
      ByteNonzero(table[n], ready, n, p);
    }
  }

  lemma SearchTable(group: Word, table: seq<Word>, ready: seq<seq<Tid>>)
    requires TwoLevel(group, table, ready) && |ready| <= 256
    ensures group == 0 <==> Highest(ready) == |ready|
    ensures group != 0 ==>
              1 <= Ffs(group) <= |table| && 8 * (Ffs(group) - 1) + Ffs(table[Ffs(group) - 1]) - 1 == Highest(ready)
  {
    hide Bit, Ffs, TwoLevel;
    var p := Highest(ready);
    FfsExact(group);
    NoBits(group);
    assert |table| == 32 by { TwoLevelSize(group, table, ready); }
    if p < |ready| {
      GroupExact(group, table, ready, p / 8);
      assert NonEmpty(ready, p) && Bit(group, p / 8);
    }
    if group != 0 {
      SearchByte(group, table, ready, Ffs(group) - 1);
    }
  }

  lemma TwoLevelSize(group: Word, table: seq<Word>, ready: seq<seq<Tid>>)
    requires TwoLevel(group, table, ready)
    ensures |table| == 32
  {
  }

  lemma SearchByte(group: Word, table: seq<Word>, ready: seq<seq<Tid>>, n: nat)
    requires TwoLevel(group, table, ready) && n < 32 && Bit(group, n) && forall m :: 0 <= m < n ==> !Bit(group, m)
    ensures |table| == 32 && 8 * n + Ffs(table[n]) - 1 == Highest(ready) < |ready|
  {
    hide Bit, Ffs, TwoLevel;
    TwoLevelSize(group, table, ready);
    GroupExact(group, table, ready, n);
    var p, q := Highest(ready), 8 * n + Ffs(table[n]) - 1;
    HighestAtMost(ready, q);
    GroupExact(group, table, ready, p / 8);
    assert NonEmpty(ready, p) && Bit(group, p / 8);
  }

  lemma HighestAtMost(ready: seq<seq<Tid>>, q: nat)
    requires NonEmpty(ready, q)
    ensures Highest(ready) <= q < |ready|
  {
  }

  lemma ByteBitNonEmpty(entry: Word, ready: seq<seq<Tid>>, n: nat, m: nat)
    requires ByteOk(entry, ready, n) && m < 32 && Bit(entry, m)
    ensures m < 8 && NonEmpty(ready, 8 * n + m)
  {
  }

  lemma NonEmptyByteBit(entry: Word, ready: seq<seq<Tid>>, n: nat, p: nat)
    requires ByteOk(entry, ready, n) && NonEmpty(ready, p) && p / 8 == n
    ensures Bit(entry, p % 8)
  {
    assert 8 * n + p % 8 == p;
  }

  // ---------------------------------------------------------------- what each thread operation does

  function Resumed(s: System, t: Tid): System
    requires t in s.threads && s.threads[t].priority < |s.ready|
  {
    if s.threads[t].stat == SUSPEND then Insert(s, t) else s
  }

  function Suspended(s: System, t: Tid): System
    requires t in s.threads
  {
    if s.threads[t].stat in {READY, RUNNING} then SetStat(Take(s, t), t, SUSPEND) else s
  }

  function Closed(s: System, t: Tid): System
    requires t in s.threads
  {
    SetStat(if s.threads[t].stat == INIT then s else Take(s, t), t, CLOSE)
  }

  function Started(s: System, t: Tid): System
    requires t in s.threads && s.threads[t].initPriority < |s.ready| <= 256
  {
    var th := WithPriority(|s.ready|, s.threads[t], s.threads[t].initPriority);
    Insert(s.(threads := s.threads[t := th.(stat := SUSPEND)]), t)
  }

  function Reprioritised(s: System, t: Tid, p: nat): System
    requires t in s.threads && p < |s.ready| <= 256
  {
    if s.threads[t].stat == READY then
      var s1 := Take(s, t);
      Insert(s1.(threads := s1.threads[t := WithPriority(|s.ready|, s1.threads[t], p)]), t)
    else s.(threads := s.threads[t := WithPriority(|s.ready|, s.threads[t], p)])
  }

  /** rt_schedule, which does nothing while the scheduler is locked */
  function Scheduled(s: System, lockNest: nat): System
    requires Queued(s) && s.current.Some?
  {
    if lockNest == 0 then Schedule(s) else s
  }

  /** Everything a thread operation must leave right. */
  ghost predicate SystemOk(s: System) {
    Queued(s) && 1 <= |s.ready| <= 256 && forall t :: t in s.threads ==> MasksSet(s, t)
  }

  /** Between start and end a thread's masks place its priority; before the start they may be empty. */
  ghost predicate MasksSet(s: System, t: Tid)
    requires t in s.threads
  {
    MaskOk(|s.ready|, s.threads[t]) || (s.threads[t].stat in {INIT, CLOSE} && Unmasked(s.threads[t]))
  }

  predicate Unmasked(th: Thread) {
    th.number == 0 && th.numberMask == 0 && th.highMask == 0
  }

  lemma SystemThread(s: System, t: Tid)
    requires SystemOk(s) && t in s.threads
    ensures ThreadOk(s, t) && MasksSet(s, t)
    ensures forall p :: 0 <= p < |s.ready| && t in s.ready[p] ==> s.threads[t].stat == READY && s.threads[t].priority == p
  {
    forall p | 0 <= p < |s.ready| && t in s.ready[p] ensures Belongs(s, t, p) {
      assert ListOk(s, p);
    }
  }

  lemma ResumedOk(s: System, t: Tid)
    requires SystemOk(s) && t in s.threads
    ensures s.threads[t].priority < |s.ready| && SystemOk(Resumed(s, t))
  {
    SystemThread(s, t);
    if s.threads[t].stat == SUSPEND {
      InsertQueued(s, t);
      hide Queued;
      assert forall u :: u in s.threads ==> MasksSet(s, u);
    }
  }

  lemma SuspendedOk(s: System, t: Tid)
    requires SystemOk(s) && t in s.threads
    ensures SystemOk(Suspended(s, t))
  {
    SystemThread(s, t);
    if s.threads[t].stat in {READY, RUNNING} {
      TakeQueued(s, t, SUSPEND);
      hide Queued;
      assert forall u :: u in s.threads ==> MasksSet(s, u);
    }
  }

  lemma ClosedOk(s: System, t: Tid)
    requires SystemOk(s) && t in s.threads
    ensures SystemOk(Closed(s, t))
  {
    SystemThread(s, t);
    if s.threads[t].stat == INIT {
      ReplacedQueued(s, t, s.threads[t].(stat := CLOSE));
    } else {
      TakeQueued(s, t, CLOSE);
    }
    hide Queued;
    assert forall u :: u in s.threads ==> MasksSet(s, u);
  }

  /** Changing a thread that is in no list, without making it READY or RUNNING. */
  lemma ReplacedQueued(s: System, t: Tid, th: Thread)
    requires Queued(s) && t in s.threads && s.threads[t].stat != READY
    requires th.priority < |s.ready| && th.initPriority < |s.ready|
    requires th.stat == s.threads[t].stat || (th.stat in {SUSPEND, CLOSE} && s.threads[t].stat == INIT)
    ensures Queued(s.(threads := s.threads[t := th]))
  {
    hide Distinct;
    var s' := s.(threads := s.threads[t := th]);
    forall p | 0 <= p < |s'.ready| ensures ListOk(s', p) {
      assert ListOk(s, p);
      forall u | u in s'.ready[p] ensures Belongs(s', u, p) {
        assert Belongs(s, u, p);
      }
    }
    forall u | u in s'.threads ensures ThreadOk(s', u) {
      assert ThreadOk(s, u);
      assert ThreadOk(s, t);
    }
  }

  lemma StartedOk(s: System, t: Tid)
    requires SystemOk(s) && t in s.threads && s.threads[t].stat == INIT
    ensures s.threads[t].initPriority < |s.ready| && SystemOk(Started(s, t))
  {
    SystemThread(s, t);
    var th := WithPriority(|s.ready|, s.threads[t], s.threads[t].initPriority).(stat := SUSPEND);
    ReplacedQueued(s, t, th);
    var s1 := s.(threads := s.threads[t := th]);
    InsertQueued(s1, t);
    hide Queued;
    assert forall u :: u in s.threads ==> MasksSet(s, u);
  }

  lemma ReprioritisedOk(s: System, t: Tid, p: nat)
    requires SystemOk(s) && t in s.threads && p < |s.ready|
    ensures SystemOk(Reprioritised(s, t, p))
  {
    SystemThread(s, t);
    var th := WithPriority(|s.ready|, s.threads[t], p);
    if s.threads[t].stat == READY {
      TakeQueued(s, t, SUSPEND);
      var s1 := SetStat(Take(s, t), t, SUSPEND);
      ReplacedQueued(s1, t, th.(stat := SUSPEND));
      var s2 := s1.(threads := s1.threads[t := th.(stat := SUSPEND)]);
      InsertQueued(s2, t);
      assert s.current != Some(t);
      assert s2.threads[t := th.(stat := READY)] == s.threads[t := th][t := th.(stat := READY)];
      assert Insert(s2, t) == Reprioritised(s, t, p);
    } else {
      ReplacedQueued(s, t, th);
    }
    hide Queued;
    assert forall u :: u in s.threads ==> MasksSet(s, u);
  }

  lemma ScheduledOk(s: System, lockNest: nat)
    requires SystemOk(s) && s.current.Some?
    ensures SystemOk(Scheduled(s, lockNest)) && Scheduled(s, lockNest).current.Some?
  {
    ScheduleQueued(s);
    hide Queued, Schedule;
    forall u | u in s.threads ensures u in Schedule(s).threads && MasksSet(Schedule(s), u) {
      ScheduleThread(s, u);
      assert MasksSet(s, u);
      if s.threads[u].stat == INIT {
        assert !Runnable(s, u);
      }
    }
    assert Schedule(s).threads.Keys == s.threads.Keys by {
      ScheduleThread(s, s.current.value);
    }
  }

  lemma Removable(s: System, t: Tid)
    requires Queued(s) && t in s.threads
    ensures s.threads[t].priority < |s.ready| && forall p :: 0 <= p < |s.ready| ==> Distinct(s.ready[p])
    ensures forall p :: 0 <= p < |s.ready| && t in s.ready[p] ==> s.threads[t].stat == READY && s.threads[t].priority == p
  {
    assert ThreadOk(s, t);
    ListsDistinct(s);
    forall p | 0 <= p < |s.ready| && t in s.ready[p] ensures Belongs(s, t, p) {
      assert ListOk(s, p);
    }
  }

  /** What a switch to t finds at each of its steps. */
  lemma SwitchFacts(s: System, t: Tid)
    requires SystemOk(s) && s.current.Some? && !Stays(s) && s.current != Some(t)
    requires Highest(s.ready) < |s.ready| && t == s.ready[Highest(s.ready)][0]
    ensures s.current.value in s.threads
    ensures s.threads[s.current.value].stat == RUNNING ==> MaskOk(|s.ready|, s.threads[s.current.value])
    ensures var o := Outgoing(s);
            && t in o.threads && |o.ready| == |s.ready| && MaskOk(|s.ready|, o.threads[t])
            && o.threads[t].priority < |o.ready| && (forall p :: 0 <= p < |o.ready| ==> Distinct(o.ready[p]))
            && (forall p :: 0 <= p < |o.ready| && t in o.ready[p] ==> o.threads[t].priority == p)
            && Schedule(s) == SwitchTo(o.(current := Some(t)), t)
  {
    hide Mask, Stays, Schedule;
    HighestIsMostUrgent(s);
    ScheduleForm(s);
    OutgoingQueued(s);
    OutgoingThread(s, t);
    OutgoingCurrent(s);
    SystemThread(s, t);
    SystemThread(s, s.current.value);
    Removable(Outgoing(s), t);
    hide Distinct, Queued;
    OutgoingMask(s, t);
  }

  lemma OutgoingMask(s: System, t: Tid)
    requires Queued(s) && s.current.Some? && t in s.threads && MaskOk(|s.ready|, s.threads[t])
    ensures Outgoing(s).threads.Keys == s.threads.Keys && MaskOk(|s.ready|, Outgoing(s).threads[t])
  {
    hide Mask;
    OutgoingThread(s, t);
  }

  lemma OutgoingForm(s: System, t: Tid)
    requires Queued(s) && s.current.Some? && s.current != Some(t)
    ensures s.current.value in s.threads && s.threads[s.current.value].priority < |s.ready|
    ensures Outgoing(s).(current := Some(t)) ==
            if s.threads[s.current.value].stat == RUNNING then Insert(s.(current := Some(t)), s.current.value)
            else s.(current := Some(t))
  {
    assert ThreadOk(s, s.current.value);
  }

  lemma UnlinkedNone(ready: seq<seq<Tid>>, t: Tid)
    requires forall p :: 0 <= p < |ready| ==> t !in ready[p]
    ensures Unlinked(ready, t) == ready
  {
    forall p | 0 <= p < |ready| ensures Unlinked(ready, t)[p] == ready[p] {
      EraseProps(ready[p], t);
    }
  }

  /** One tick off the current thread's slice; a used-up slice starts again. */
  function Ticked(s: System): System
    requires s.current.Some? && s.current.value in s.threads
  {
    var th := s.threads[s.current.value];
    var left := (th.remainingTick - 1) % 0x1_0000_0000;
    s.(threads := s.threads[s.current.value := th.(remainingTick := if left == 0 then th.initTick else left)])
  }

  lemma TickedOk(s: System)
    requires SystemOk(s) && s.current.Some?
    ensures SystemOk(Ticked(s))
  {
    var t := s.current.value;
    SystemThread(s, t);
    var th := Ticked(s).threads[t];
    ReplacedQueued(s, t, th);
    hide Queued, MaskOk;
    if MaskOk(|s.ready|, s.threads[t]) {
      MaskFrame(|s.ready|, s.threads[t], th);
    }
    assert forall u :: u in s.threads ==> MasksSet(s, u);
  }

  lemma MaskFrame(levels: nat, th: Thread, th': Thread)
    requires th' == th.(remainingTick := th'.remainingTick) && MaskOk(levels, th)
    ensures MaskOk(levels, th')
  {
  }

  // ---------------------------------------------------------------- operations that schedule

  /** rt_system_scheduler_start */
  function FirstSwitch(s: System): System
    requires Queued(s) && Highest(s.ready) < |s.ready|
  {
    HighestIsMostUrgent(s);
    var t := s.ready[Highest(s.ready)][0];
    SwitchTo(s.(current := Some(t)), t)
  }

  lemma FirstSwitchOk(s: System)
    requires SystemOk(s) && Highest(s.ready) < |s.ready| && s.current.None?
    ensures SystemOk(FirstSwitch(s))
  {
    HighestIsMostUrgent(s);
    var t := s.ready[Highest(s.ready)][0];
    var s1 := s.(current := Some(t));
    assert s1.(current := None) == s;
    SwitchQueued(s1, t);
    hide Queued, MaskOk;
    forall u | u in s.threads ensures MasksSet(FirstSwitch(s), u) {
      SystemThread(s, u);
      SystemMask(s, FirstSwitch(s), u);
    }
  }

  lemma SystemMask(s: System, s': System, u: Tid)
    requires u in s.threads && u in s'.threads && MasksSet(s, u) && |s'.ready| == |s.ready|
    requires s'.threads[u] == s.threads[u].(stat := s'.threads[u].stat)
    requires s.threads[u].stat in {INIT, CLOSE} ==> s'.threads[u].stat == s.threads[u].stat
    ensures MasksSet(s', u)
  {
  }

  /** rt_thread_startup */
  function StartUp(s: System, t: Tid, lockNest: nat): System
    requires SystemOk(s) && t in s.threads && s.threads[t].stat == INIT
  {
    StartedOk(s, t);
    StartedCurrent(s, t);
    if s.current.None? then Started(s, t) else Scheduled(Started(s, t), lockNest)
  }

  lemma StartedCurrent(s: System, t: Tid)
    requires t in s.threads && s.threads[t].initPriority < |s.ready| <= 256
    ensures Started(s, t).current == s.current
  {
  }

  /** rt_thread_exit */
  function Exited(s: System, lockNest: nat): System
    requires SystemOk(s) && s.current.Some?
  {
    ClosedOk(s, s.current.value);
    Scheduled(Closed(s, s.current.value), lockNest)
  }

  /** rt_thread_timeout */
  function TimedOut(s: System, t: Tid, lockNest: nat): System
    requires SystemOk(s) && t in s.threads && s.current.Some?
  {
    ResumedOk(s, t);
    ResumedCurrent(s, t);
    Scheduled(Resumed(s, t), lockNest)
  }

  lemma ResumedCurrent(s: System, t: Tid)
    requires t in s.threads && s.threads[t].priority < |s.ready|
    ensures Resumed(s, t).current == s.current && Insert(s, t).current == s.current
  {
  }

  /** The time slice part of rt_tick_increase: a thread whose slice is used up yields. */
  function TickedAndYielded(s: System, lockNest: nat): System
    requires SystemOk(s) && s.current.Some?
  {
    TickedOk(s);
    if s.threads[s.current.value].remainingTick % 0x1_0000_0000 == 1 then Scheduled(Ticked(s), lockNest) else Ticked(s)
  }

  // ---------------------------------------------------------------- the tables

  class Scheduler {
    var threads: map<Tid, Thread>
    /** rt_thread_priority_table; its length is RT_THREAD_PRIORITY_MAX */
    var ready: seq<seq<Tid>>
    /** rt_thread_ready_priority_group and rt_thread_ready_table */
    var group: Word
    var table: seq<Word>
    /** rt_current_thread, rt_scheduler_lock_nest */
    var current: Option<Tid>
    var lockNest: nat

    ghost function Abs(): System
      reads this`ready, this`threads, this`current
    {
      System(ready, threads, current)
    }

    ghost predicate Valid()
      reads this
    {
      SystemOk(Abs()) && IndexOk(group, table, ready)
    }

    /** rt_system_scheduler_init */
    constructor (priorityMax: nat)
      requires 1 <= priorityMax <= 256
      ensures Valid() && |ready| == priorityMax && threads == map[] && current == None && lockNest == 0
    {
      hide Bit;
      ready := seq(priorityMax, _ => []);
      threads := map[];
      group := 0;
      table := seq(32, _ => 0);
      current := None;
      lockNest := 0;
      new;
      ClearIndex(ready, table);
    }

    static lemma ClearIndex(ready: seq<seq<Tid>>, table: seq<Word>)
      requires |ready| <= 256 && |table| == 32
      requires (forall p :: 0 <= p < |ready| ==> ready[p] == []) && forall n :: 0 <= n < 32 ==> table[n] == 0
      ensures IndexOk(0, table, ready)
    {
      hide Bit;
      NoBits(0);
      forall n | 0 <= n < 32 ensures ByteOk(table[n], ready, n) {
      }
    }

    /** _rt_thread_init */
    method Init(t: Tid, priority: nat, tick: nat)
      requires Valid() && t !in threads && priority < |ready|
      modifies this`threads
      ensures Valid() && threads == old(threads)[t := Thread(INIT, priority, priority, 0, 0, 0, tick, tick)]
    {
      hide IndexOk, MaskOk, Distinct;
      ghost var s := Abs();
      threads := threads[t := Thread(INIT, priority, priority, 0, 0, 0, tick, tick)];
      forall p | 0 <= p < |ready| ensures ListOk(Abs(), p) {
        assert ListOk(s, p);
        forall u | u in ready[p] ensures Belongs(Abs(), u, p) {
          assert Belongs(s, u, p);
        }
      }
      forall u | u in threads ensures ThreadOk(Abs(), u) && MasksSet(Abs(), u) {
        if u != t {
          assert ThreadOk(s, u) && MasksSet(s, u);
        }
      }
    }

    /** _get_highest_priority_thread */
    method GetHighest() returns (p: nat, t: Tid)
      requires Valid() && group != 0
      ensures p == Highest(ready) < |ready| && ready[p] != [] && t == ready[p][0]
    {
      SearchExact(group, table, ready);
      if |ready| > 32 {
        var number := Ffs(group) - 1;
        p := 8 * number + Ffs(table[number]) - 1;
      } else {
        p := Ffs(group) - 1;
      }
      t := ready[p][0];
    }

    /** rt_schedule_insert_thread, for a thread in no list */
    method InsertThread(t: Tid)
      requires t in threads && MaskOk(|ready|, threads[t]) && IndexOk(group, table, ready)
      modifies this`ready, this`threads, this`group, this`table
      ensures Abs() == Insert(old(Abs()), t) && IndexOk(group, table, ready)
    {
      hide Bit, Mask, Or, TwoLevel, OneLevel;
      if current == Some(t) {
        threads := threads[t := threads[t].(stat := RUNNING)];
        return;
      }
      threads := threads[t := threads[t].(stat := READY)];
      var p := threads[t].priority;
      ready := ready[p := ready[p] + [t]];
      if |ready| > 32 {
        TwoLevelAdd(group, table, old(ready), ready, p);
        assert threads[t].number == p / 8 < 32;
        table := table[threads[t].number := Or(table[threads[t].number], threads[t].highMask)];
      } else {
        OneLevelUpdate(group, old(ready), ready, p, true);
      }
      group := Or(group, threads[t].numberMask);
    }

    /** rt_schedule_remove_thread */
    method RemoveThread(t: Tid)
      requires t in threads && IndexOk(group, table, ready)
      requires MaskOk(|ready|, threads[t]) || Unmasked(threads[t])
      requires threads[t].priority < |ready| && forall p :: 0 <= p < |ready| ==> Distinct(ready[p])
      requires forall p :: 0 <= p < |ready| && t in ready[p] ==> threads[t].priority == p && MaskOk(|ready|, threads[t])
      modifies this`ready, this`group, this`table
      ensures Abs() == Take(old(Abs()), t) && |ready| == |old(ready)| && IndexOk(group, table, ready)
    {
      hide Bit, Mask, Or, TwoLevel, OneLevel, Unlinked, AndNot, Distinct;
      UnlinkedProps(ready, t);
      ready := Unlinked(ready, t);
      var th := threads[t];
      if ready[th.priority] == [] {
        RemovedIndex(group, table, old(ready), ready, th);
        if |ready| > 32 {
          table := table[th.number := AndNot(table[th.number], th.highMask)];
          if table[th.number] == 0 {
            group := AndNot(group, th.numberMask);
          }
        } else {
          group := AndNot(group, th.numberMask);
        }
      } else {
        IndexSame(group, table, old(ready), ready);
      }
    }

    /** The part of rt_schedule that makes t the current thread instead of another one. */
    method SwitchThread(t: Tid, needInsert: bool)
      requires Valid() && current.Some? && !Stays(Abs()) && current != Some(t)
      requires Highest(ready) < |ready| && t == ready[Highest(ready)][0]
      requires needInsert <==> threads[current.value].stat == RUNNING
      modifies this`ready, this`threads, this`group, this`table, this`current
      ensures Abs() == old(Scheduling.Schedule(Abs())) && IndexOk(group, table, ready) && current == Some(t)
    {
      hide IndexOk, MaskOk, Distinct, Unlinked, Stays, Queued, Outgoing, Scheduling.Schedule;
      ghost var s := Abs();
      SwitchFacts(s, t);
      var from := current.value;
      current := Some(t);
      if needInsert {
        InsertThread(from);
      }
      OutgoingForm(s, t);
      assert Abs() == Outgoing(s).(current := Some(t));
      RemoveThread(t);
      threads := threads[t := threads[t].(stat := RUNNING)];
    }

    /** rt_schedule.  The result says whether the processor changes threads. */
    method Schedule() returns (switched: bool)
      requires Valid() && current.Some?
      modifies this`ready, this`threads, this`group, this`table, this`current
      ensures Valid() && current.Some? && Abs() == Scheduled(old(Abs()), lockNest)
      ensures switched <==> current != old(current)
    {
      hide IndexOk, MaskOk, Distinct, Unlinked, Scheduling.Schedule;
      ghost var s := Abs();
      ScheduledOk(s, lockNest);
      switched := false;
      if lockNest == 0 {
        SearchExact(group, table, ready);
        ScheduleForm(s);
        HighestIsMostUrgent(s);
        if group != 0 {
          var p, t := GetHighest();
          var needInsert := false;
          SystemThread(s, current.value);
          if threads[current.value].stat == RUNNING {
            if threads[current.value].priority < p {
              t := current.value;
            } else {
              needInsert := true;
            }
          }
          if t != current.value {
            SwitchThread(t, needInsert);
            switched := true;
          } else {
            Removable(s, t);
            UnlinkedNone(ready, t);
            RemoveThread(t);
            threads := threads[t := threads[t].(stat := RUNNING)];
            assert Abs() == s;
          }
        }
      }
    }

    // -------------------------------------------------------------- thread operations

    /** rt_system_scheduler_start, with a thread to run */
    method Start()
      requires Valid() && current.None? && Highest(ready) < |ready|
      modifies this`ready, this`threads, this`group, this`table, this`current
      ensures Valid() && Abs() == FirstSwitch(old(Abs()))
    {
      hide IndexOk, Mask, Distinct, Unlinked, Queued;
      ghost var s := Abs();
      SearchExact(group, table, ready);
      FirstSwitchOk(s);
      HighestIsMostUrgent(s);
      var _, t := GetHighest();
      SystemThread(s, t);
      Removable(s, t);
      current := Some(t);
      RemoveThread(t);
      threads := threads[t := threads[t].(stat := RUNNING)];
      assert Abs() == FirstSwitch(s);
    }

    /** rt_thread_resume; false is -RT_ERROR */
    method Resume(t: Tid) returns (ok: bool)
      requires Valid() && t in threads
      modifies this`ready, this`threads, this`group, this`table
      ensures Valid() && Abs() == Resumed(old(Abs()), t) && ok == old(threads[t].stat == SUSPEND)
    {
      hide IndexOk, MaskOk, Distinct, Queued, Insert;
      ResumedOk(Abs(), t);
      SystemThread(Abs(), t);
      if threads[t].stat != SUSPEND {
        return false;
      }
      InsertThread(t);
      ok := true;
    }

    /** rt_thread_startup */
    method Startup(t: Tid)
      requires Valid() && t in threads && threads[t].stat == INIT
      modifies this`ready, this`threads, this`group, this`table, this`current
      ensures Valid() && Abs() == StartUp(old(Abs()), t, lockNest)
    {
      hide IndexOk, Mask, Distinct, Queued, Insert, Scheduled;
      StartedOk(Abs(), t);
      StartedCurrent(Abs(), t);
      SystemThread(Abs(), t);
      threads := threads[t := WithPriority(|ready|, threads[t], threads[t].initPriority)];
      threads := threads[t := threads[t].(stat := SUSPEND)];
      assert threads == old(threads)[t := threads[t]];
      InsertThread(t);
      assert Abs() == Started(old(Abs()), t);
      if current.Some? {
        var _ := Schedule();
      }
    }

    /** rt_thread_suspend; false is -RT_ERROR */
    method Suspend(t: Tid) returns (ok: bool)
      requires Valid() && t in threads
      modifies this`ready, this`threads, this`group, this`table
      ensures Valid() && Abs() == Suspended(old(Abs()), t) && ok == old(threads[t].stat in {READY, RUNNING})
    {
      hide IndexOk, MaskOk, Distinct, Queued, Unlinked;
      SuspendedOk(Abs(), t);
      SystemThread(Abs(), t);
      Removable(Abs(), t);
      if threads[t].stat != READY && threads[t].stat != RUNNING {
        return false;
      }
      RemoveThread(t);
      threads := threads[t := threads[t].(stat := SUSPEND)];
      ok := true;
    }

    /** rt_thread_delete, and rt_thread_detach of a thread that keeps its object */
    method Delete(t: Tid)
      requires Valid() && t in threads
      modifies this`ready, this`threads, this`group, this`table
      ensures Valid() && Abs() == Closed(old(Abs()), t)
    {
      hide IndexOk, MaskOk, Distinct, Queued, Unlinked;
      ClosedOk(Abs(), t);
      SystemThread(Abs(), t);
      Removable(Abs(), t);
      if threads[t].stat != INIT {
        RemoveThread(t);
      }
      threads := threads[t := threads[t].(stat := CLOSE)];
    }

    /** rt_thread_exit */
    method Exit()
      requires Valid() && current.Some?
      modifies this`ready, this`threads, this`group, this`table, this`current
      ensures Valid() && Abs() == Exited(old(Abs()), lockNest)
    {
      hide IndexOk, MaskOk, Distinct, Unlinked, Scheduled;
      ghost var s := Abs();
      var t := current.value;
      ClosedOk(s, t);
      SystemThread(s, t);
      Removable(s, t);
      RemoveThread(t);
      threads := threads[t := threads[t].(stat := CLOSE)];
      assert Abs() == Closed(s, t);
      var _ := Schedule();
    }

    /** rt_thread_control with RT_THREAD_CTRL_CHANGE_PRIORITY */
    method ChangePriority(t: Tid, p: nat)
      requires Valid() && t in threads && p < |ready|
      modifies this`ready, this`threads, this`group, this`table
      ensures Valid() && Abs() == Reprioritised(old(Abs()), t, p)
    {
      hide IndexOk, Mask, Distinct, Queued, Unlinked, Insert;
      ReprioritisedOk(Abs(), t, p);
      SystemThread(Abs(), t);
      Removable(Abs(), t);
      if threads[t].stat == READY {
        RemoveThread(t);
        threads := threads[t := WithPriority(|ready|, threads[t], p)];
        InsertThread(t);
      } else {
        threads := threads[t := WithPriority(|ready|, threads[t], p)];
      }
    }

    /** rt_thread_timeout of a waiting thread, as far as the ready queues go */
    method Timeout(t: Tid)
      requires Valid() && t in threads && threads[t].stat == SUSPEND && current.Some?
      modifies this`ready, this`threads, this`group, this`table, this`current
      ensures Valid() && Abs() == TimedOut(old(Abs()), t, lockNest)
    {
      hide IndexOk, MaskOk, Distinct, Insert, Scheduled;
      ghost var s := Abs();
      ResumedOk(s, t);
      SystemThread(s, t);
      InsertThread(t);
      assert Abs() == Resumed(s, t);
      ResumedCurrent(s, t);
      var _ := Schedule();
    }

    /** rt_enter_critical */
    method EnterCritical()
      requires Valid()
      modifies this`lockNest
      ensures Valid() && lockNest == old(lockNest) + 1
    {
      lockNest := lockNest + 1;
    }

    /** rt_exit_critical: leaving the outermost section makes up for the schedules that were locked out */
    method ExitCritical()
      requires Valid()
      modifies this`lockNest, this`ready, this`threads, this`group, this`table, this`current
      ensures Valid() && lockNest == if old(lockNest) <= 1 then 0 else old(lockNest) - 1
      ensures Abs() == if old(lockNest) <= 1 && old(current).Some? then Scheduled(old(Abs()), 0) else old(Abs())
    {
      hide IndexOk, MaskOk, Distinct, Scheduled;
      if lockNest <= 1 {
        lockNest := 0;
        if current.Some? {
          var _ := Schedule();
        }
      } else {
        lockNest := lockNest - 1;
      }
    }

    /** The time slice part of rt_tick_increase: a thread whose slice is used up gets a new one and yields. */
    method TickIncrease()
      requires Valid() && current.Some?
      modifies this`ready, this`threads, this`group, this`table, this`current
      ensures Valid() && Abs() == TickedAndYielded(old(Abs()), lockNest)
    {
      hide IndexOk, MaskOk, Distinct, Scheduled;
      ghost var s := Abs();
      var t := current.value;
      TickedOk(s);
      threads := threads[t := threads[t].(remainingTick := (threads[t].remainingTick - 1) % 0x1_0000_0000)];
      if threads[t].remainingTick == 0 {
        threads := threads[t := threads[t].(remainingTick := threads[t].initTick)];
        assert Abs() == Ticked(s);
        var _ := Schedule();
      }
    }
  }
}
