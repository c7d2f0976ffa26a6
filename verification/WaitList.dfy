/** The wait lists of src/ipc.c: who is suspended on an object, and where a newcomer goes. */
module WaitList {
  import opened Basics

  type Tid = nat

  /** RT_IPC_FLAG_FIFO, RT_IPC_FLAG_PRIO */
  datatype Flag = FIFO | PRIO
  datatype Err = EOK | ETIMEOUT | EFULL | ERROR

  /** Where rt_ipc_list_suspend puts a thread of priority p. */
  function PrioPlace(waiters: seq<Tid>, priority: map<Tid, nat>, p: nat): (i: nat)
    requires forall w :: w in waiters ==> w in priority
    ensures i <= |waiters|
  {
    if waiters == [] || p < priority[waiters[0]] then 0 else 1 + PrioPlace(waiters[1..], priority, p)
  }

  /** rt_ipc_list_suspend */
  function Queued(flag: Flag, waiters: seq<Tid>, priority: map<Tid, nat>, t: Tid): seq<Tid>
    requires t in priority && forall w :: w in waiters ==> w in priority
  {
    InsertAt(waiters, if flag == FIFO then |waiters| else PrioPlace(waiters, priority, priority[t]), t)
  }

  /** A priority-sorted wait list */
  ghost predicate Sorted(waiters: seq<Tid>, priority: map<Tid, nat>)
    requires forall w :: w in waiters ==> w in priority
  {
    forall i, j :: 0 <= i < j < |waiters| ==> priority[waiters[i]] <= priority[waiters[j]]
  }

  /** A thread is queued behind every waiter at least as urgent and before every less urgent one: waiters of
      one priority are served in the order they came. */
  lemma {:induction false} PlaceExact(waiters: seq<Tid>, priority: map<Tid, nat>, p: nat)
    requires (forall w :: w in waiters ==> w in priority) && Sorted(waiters, priority)
    ensures var i := PrioPlace(waiters, priority, p);
            && (forall j :: 0 <= j < i ==> priority[waiters[j]] <= p)
            && (forall j :: i <= j < |waiters| ==> p < priority[waiters[j]])
  {
    if waiters != [] && !(p < priority[waiters[0]]) {
      var tail := waiters[1..];
      assert forall j :: 0 <= j < |tail| ==> tail[j] == waiters[j + 1];
      PlaceExact(tail, priority, p);
      var i := PrioPlace(tail, priority, p);
      forall j | 0 <= j < 1 + i ensures priority[waiters[j]] <= p {
        assert j > 0 ==> waiters[j] == tail[j - 1];
      }
      forall j | 1 + i <= j < |waiters| ensures p < priority[waiters[j]] {
        assert waiters[j] == tail[j - 1];
      }
    }
  }

  lemma InsertSorted(waiters: seq<Tid>, priority: map<Tid, nat>, t: Tid)
    requires t in priority && (forall w :: w in waiters ==> w in priority) && Sorted(waiters, priority)
    ensures var l := InsertAt(waiters, PrioPlace(waiters, priority, priority[t]), t);
            (forall w :: w in l ==> w in priority) && Sorted(l, priority)
  {
    var i := PrioPlace(waiters, priority, priority[t]);
    PlaceExact(waiters, priority, priority[t]);
    InsertAtAt(waiters, i, t);
    var l := InsertAt(waiters, i, t);
    forall w ensures w in l <==> w in waiters || w == t {
      InsertMembers(waiters, i, t, w);
    }
    hide InsertAt;
  }

  lemma EraseSorted(waiters: seq<Tid>, priority: map<Tid, nat>, t: Tid)
    requires (forall w :: w in waiters ==> w in priority) && Sorted(waiters, priority) && t in waiters && Distinct(waiters)
    ensures var l := Erase(waiters, t);
            (forall w :: w in l ==> w in priority) && Sorted(l, priority) && Distinct(l)
  {
    EraseProps(waiters, t);
    var i :| 0 <= i < |waiters| && waiters[i] == t;
    EraseAt(waiters, i);
    RemoveAtAt(waiters, i);
    RemoveDistinct(waiters, i);
  }

  /** Queueing adds the thread, and keeps a PRIO list sorted. */
  lemma QueuedProps(flag: Flag, waiters: seq<Tid>, priority: map<Tid, nat>, t: Tid)
    requires t in priority && (forall w :: w in waiters ==> w in priority) && Distinct(waiters) && t !in waiters
    ensures var l := Queued(flag, waiters, priority, t);
            && Distinct(l) && |l| == |waiters| + 1 && (forall w :: w in l <==> w in waiters || w == t)
            && (flag == PRIO && Sorted(waiters, priority) ==> Sorted(l, priority))
  {
    var i := if flag == FIFO then |waiters| else PrioPlace(waiters, priority, priority[t]);
    InsertDistinct(waiters, i, t);
    forall w ensures w in InsertAt(waiters, i, t) <==> w in waiters || w == t {
      InsertMembers(waiters, i, t, w);
    }
    if flag == PRIO && Sorted(waiters, priority) {
      InsertSorted(waiters, priority, t);
    }
  }

  /** The newcomer t is the last of a FIFO list; on a PRIO list it is behind all that are at least as urgent and before
      all that are less urgent. */
  ghost predicate Joined(flag: Flag, waiters: seq<Tid>, waiters': seq<Tid>, priority: map<Tid, nat>, t: Tid)
    requires t in priority && forall w :: w in waiters ==> w in priority
  {
    exists i: nat ::
      && i <= |waiters| && waiters' == waiters[..i] + [t] + waiters[i..]
      && match flag
         case FIFO => i == |waiters|
         case PRIO => (forall j :: 0 <= j < i ==> priority[waiters[j]] <= priority[t])
                      && forall j :: i <= j < |waiters| ==> priority[t] < priority[waiters[j]]
  }

  lemma QueuedJoined(flag: Flag, waiters: seq<Tid>, priority: map<Tid, nat>, t: Tid)
    requires t in priority && (forall w :: w in waiters ==> w in priority) && (flag == PRIO ==> Sorted(waiters, priority))
    ensures Joined(flag, waiters, Queued(flag, waiters, priority, t), priority, t)
  {
    var i := if flag == FIFO then |waiters| else PrioPlace(waiters, priority, priority[t]);
    if flag == PRIO {
      PlaceExact(waiters, priority, priority[t]);
    }
    assert Queued(flag, waiters, priority, t) == waiters[..i] + [t] + waiters[i..];
  }

  // ---------------------------------------------------------------- first come, first served

  /** `since` numbers the waiters in the order they came; `clock` is the next number. */
  ghost predicate Stamped(waiters: seq<Tid>, since: map<Tid, nat>, clock: nat) {
    forall w :: w in waiters ==> w in since && since[w] < clock
  }

  /** Of two waiters that nothing else tells apart the one that came first is first: on a FIFO list any two, on
      a PRIO list any two of one priority. */
  ghost predicate InTurn(flag: Flag, waiters: seq<Tid>, priority: map<Tid, nat>, since: map<Tid, nat>) {
    forall i, j :: 0 <= i < j < |waiters| ==> Turn(flag, priority, since, waiters[i], waiters[j])
  }

  ghost predicate Turn(flag: Flag, priority: map<Tid, nat>, since: map<Tid, nat>, a: Tid, b: Tid) {
    && a in since && b in since && a in priority && b in priority
    && (flag == FIFO || priority[a] == priority[b] ==> since[a] < since[b])
  }

  /** A newcomer's place: only waiters of another priority are behind it. */
  lemma InsertedInTurn(flag: Flag, waiters: seq<Tid>, priority: map<Tid, nat>, since: map<Tid, nat>, clock: nat, p: nat, t: Tid)
    requires t in priority && t !in waiters && (forall w :: w in waiters ==> w in priority) && p <= |waiters|
    requires Stamped(waiters, since, clock) && InTurn(flag, waiters, priority, since)
    requires forall j :: p <= j < |waiters| ==> flag == PRIO && priority[waiters[j]] != priority[t]
    ensures InTurn(flag, InsertAt(waiters, p, t), priority, since[t := clock])
  {
    var l, since' := InsertAt(waiters, p, t), since[t := clock];
    InsertAtAt(waiters, p, t);
    hide InsertAt;
    forall i, j | 0 <= i < j < |l| ensures Turn(flag, priority, since', l[i], l[j]) {
      var i', j' := if i < p then i else i - 1, if j < p then j else j - 1;
      assert i != p ==> waiters[i'] in waiters;
      assert j != p ==> waiters[j'] in waiters;
      if i != p && j != p {
        assert Turn(flag, priority, since, waiters[i'], waiters[j']);
      }
    }
  }

  lemma QueuedInTurn(flag: Flag, waiters: seq<Tid>, priority: map<Tid, nat>, since: map<Tid, nat>, clock: nat, t: Tid)
    requires t in priority && (forall w :: w in waiters ==> w in priority) && t !in waiters
    requires flag == PRIO ==> Sorted(waiters, priority)
    requires Stamped(waiters, since, clock) && InTurn(flag, waiters, priority, since)
    ensures var l := Queued(flag, waiters, priority, t);
            Stamped(l, since[t := clock], clock + 1) && InTurn(flag, l, priority, since[t := clock])
  {
    var p := if flag == FIFO then |waiters| else PrioPlace(waiters, priority, priority[t]);
    if flag == PRIO {
      PlaceExact(waiters, priority, priority[t]);
    }
    hide Sorted, PrioPlace;
    InsertedInTurn(flag, waiters, priority, since, clock, p, t);
    forall w ensures w in InsertAt(waiters, p, t) <==> w in waiters || w == t {
      InsertMembers(waiters, p, t, w);
    }
    hide InsertAt, InTurn;
  }

  lemma RemovedInTurn(flag: Flag, waiters: seq<Tid>, priority: map<Tid, nat>, priority': map<Tid, nat>,
                      since: map<Tid, nat>, clock: nat, i: nat)
    requires i < |waiters| && Stamped(waiters, since, clock) && InTurn(flag, waiters, priority, since)
    requires forall w :: w in waiters && w in priority ==> w in priority' && priority'[w] == priority[w]
    ensures var l := RemoveAt(waiters, i); Stamped(l, since, clock) && InTurn(flag, l, priority', since)
  {
    RemoveAtAt(waiters, i);
    var l := RemoveAt(waiters, i);
    hide RemoveAt;
    forall w | w in l ensures w in waiters {
      var k :| 0 <= k < |l| && l[k] == w;
      assert waiters[if k < i then k else k + 1] == w;
    }
    forall a, b | 0 <= a < b < |l| ensures Turn(flag, priority', since, l[a], l[b]) {
      var a', b' := if a < i then a else a + 1, if b < i then b else b + 1;
      assert Turn(flag, priority, since, waiters[a'], waiters[b']);
      assert waiters[a'] in waiters && waiters[b'] in waiters;
    }
  }

  lemma ErasedInTurn(flag: Flag, waiters: seq<Tid>, priority: map<Tid, nat>, since: map<Tid, nat>, clock: nat, t: Tid)
    requires Distinct(waiters) && t in waiters && Stamped(waiters, since, clock) && InTurn(flag, waiters, priority, since)
    ensures Stamped(Erase(waiters, t), since, clock) && InTurn(flag, Erase(waiters, t), priority, since)
  {
    var i :| 0 <= i < |waiters| && waiters[i] == t;
    EraseAt(waiters, i);
    RemovedInTurn(flag, waiters, priority, priority, since, clock, i);
  }

  lemma TailInTurn(flag: Flag, waiters: seq<Tid>, priority: map<Tid, nat>, priority': map<Tid, nat>, since: map<Tid, nat>, clock: nat)
    requires waiters != [] && Stamped(waiters, since, clock) && InTurn(flag, waiters, priority, since)
    requires forall w :: w in waiters && w in priority ==> w in priority' && priority'[w] == priority[w]
    ensures Stamped(waiters[1..], since, clock) && InTurn(flag, waiters[1..], priority', since)
  {
    RemovedInTurn(flag, waiters, priority, priority', since, clock, 0);
    assert RemoveAt(waiters, 0) == waiters[1..];
  }

  /** Of the waiters u is the one to be served next: on a FIFO list the one that came first, on a PRIO list the one
      that came first among the most urgent. */
  ghost predicate NextInTurn(flag: Flag, waiters: seq<Tid>, priority: map<Tid, nat>, since: map<Tid, nat>, u: Tid) {
    u in waiters && forall w :: w in waiters && w != u ==> GoesBefore(flag, priority, since, u, w)
  }

  ghost predicate GoesBefore(flag: Flag, priority: map<Tid, nat>, since: map<Tid, nat>, u: Tid, w: Tid) {
    && u in since && w in since && u in priority && w in priority
    && match flag
       case FIFO => since[u] < since[w]
       case PRIO => priority[u] < priority[w] || (priority[u] == priority[w] && since[u] < since[w])
  }

  /** That is the head of the list and no other. */
  lemma HeadIsNext(flag: Flag, waiters: seq<Tid>, priority: map<Tid, nat>, since: map<Tid, nat>)
    requires waiters != [] && (forall w :: w in waiters ==> w in priority) && InTurn(flag, waiters, priority, since)
    requires flag == PRIO ==> Sorted(waiters, priority)
    requires waiters[0] in since
    ensures forall u :: NextInTurn(flag, waiters, priority, since, u) <==> u == waiters[0]
  {
    forall w | w in waiters && w != waiters[0] ensures GoesBefore(flag, priority, since, waiters[0], w) {
      var j :| 0 <= j < |waiters| && waiters[j] == w;
      assert Turn(flag, priority, since, waiters[0], waiters[j]);
    }
    forall u | NextInTurn(flag, waiters, priority, since, u) ensures u == waiters[0] {
      OneNext(flag, waiters, priority, since, u, waiters[0]);
    }
  }

  lemma OneNext(flag: Flag, waiters: seq<Tid>, priority: map<Tid, nat>, since: map<Tid, nat>, u: Tid, v: Tid)
    requires NextInTurn(flag, waiters, priority, since, u) && NextInTurn(flag, waiters, priority, since, v)
    ensures u == v
  {
  }

  /** A list that serves its waiters in the order it promises */
  ghost predicate Ordered(flag: Flag, waiters: seq<Tid>, priority: map<Tid, nat>, since: map<Tid, nat>, clock: nat) {
    && (forall w :: w in waiters ==> w in priority)
    && (flag == PRIO ==> Sorted(waiters, priority))
    && Stamped(waiters, since, clock) && InTurn(flag, waiters, priority, since)
  }

  lemma QueuedOrdered(flag: Flag, waiters: seq<Tid>, priority: map<Tid, nat>, since: map<Tid, nat>, clock: nat, t: Tid)
    requires Ordered(flag, waiters, priority, since, clock) && Distinct(waiters) && t !in waiters && t in priority
    ensures Ordered(flag, Queued(flag, waiters, priority, t), priority, since[t := clock], clock + 1)
  {
    QueuedProps(flag, waiters, priority, t);
    QueuedInTurn(flag, waiters, priority, since, clock, t);
    hide Queued, Distinct, Stamped, InTurn;
  }

  /** Stamping a thread that is not in the list leaves it in order. */
  lemma LaterClock(flag: Flag, waiters: seq<Tid>, priority: map<Tid, nat>, since: map<Tid, nat>, clock: nat, t: Tid)
    requires Ordered(flag, waiters, priority, since, clock) && t !in waiters
    ensures Ordered(flag, waiters, priority, since[t := clock], clock + 1)
  {
    hide Sorted;
    forall i, j | 0 <= i < j < |waiters| ensures Turn(flag, priority, since[t := clock], waiters[i], waiters[j]) {
      assert Turn(flag, priority, since, waiters[i], waiters[j]);
      assert waiters[i] in waiters && waiters[j] in waiters;
    }
  }

  lemma ErasedOrdered(flag: Flag, waiters: seq<Tid>, priority: map<Tid, nat>, since: map<Tid, nat>, clock: nat, t: Tid)
    requires Ordered(flag, waiters, priority, since, clock) && Distinct(waiters)
    ensures Ordered(flag, Erase(waiters, t), priority, since, clock)
  {
    EraseProps(waiters, t);
    if t in waiters {
      ErasedInTurn(flag, waiters, priority, since, clock, t);
      if flag == PRIO {
        EraseSorted(waiters, priority, t);
      }
    }
    hide Erase, Distinct, Sorted, Stamped, InTurn;
  }

  lemma TailOrdered(flag: Flag, waiters: seq<Tid>, priority: map<Tid, nat>, since: map<Tid, nat>, clock: nat)
    requires Ordered(flag, waiters, priority, since, clock) && waiters != []
    ensures Ordered(flag, waiters[1..], priority, since, clock)
    ensures forall u :: NextInTurn(flag, waiters, priority, since, u) <==> u == waiters[0]
  {
    var l := waiters;
    TailInTurn(flag, l, priority, priority, since, clock);
    assert l[0] in l;
    HeadIsNext(flag, l, priority, since);
    assert forall j :: 0 <= j < |l| - 1 ==> l[1..][j] == l[j + 1];
    assert forall w :: w in l[1..] ==> w in l;
    hide Stamped, InTurn, NextInTurn;
  }

  /** Everyone but u is still in the list. */
  ghost predicate Gone(waiters: seq<Tid>, waiters': seq<Tid>, u: Tid) {
    forall w :: w in waiters' <==> w in waiters && w != u
  }

  // ---------------------------------------------------------------- the list operations

  /** rt_ipc_list_suspend, with its search for a place */
  method ListSuspend(flag: Flag, waiters: seq<Tid>, currentPriority: map<Tid, nat>, thread: Tid) returns (list: seq<Tid>)
    requires thread in currentPriority && forall w :: w in waiters ==> w in currentPriority
    ensures list == Queued(flag, waiters, currentPriority, thread)
  {
    match flag {
      case FIFO =>
        list := waiters + [thread];
      case PRIO =>
        var n := 0;
        while n < |waiters|
          invariant n <= |waiters|
          invariant PrioPlace(waiters, currentPriority, currentPriority[thread])
                    == n + PrioPlace(waiters[n..], currentPriority, currentPriority[thread])
        {
          assert waiters[n..][0] == waiters[n] && waiters[n..][1..] == waiters[n + 1..];
          if currentPriority[thread] < currentPriority[waiters[n]] {
            return InsertAt(waiters, n, thread);
          }
          n := n + 1;
        }
        list := waiters + [thread];
    }
  }

  /** The error codes when all of the list have been resumed with -RT_ERROR. */
  function Failed(error: map<Tid, Err>, list: seq<Tid>): map<Tid, Err> {
    error + map t | t in list :: ERROR
  }

  lemma NoneFailed(error: map<Tid, Err>)
    ensures Failed(error, []) == error
  {
  }

  lemma FailFirst(error: map<Tid, Err>, list: seq<Tid>)
    requires list != []
    ensures Failed(error[list[0] := ERROR], list[1..]) == Failed(error, list)
  {
    assert forall t :: t in list <==> t == list[0] || t in list[1..];
  }

  /** rt_ipc_list_resume_all */
  method ListResumeAll(list: seq<Tid>, before: map<Tid, Err>) returns (error: map<Tid, Err>)
    ensures error == Failed(before, list)
  {
    hide Failed;
    error := before;
    assert list[0..] == list;
    for i := 0 to |list|
      invariant Failed(error, list[i..]) == Failed(before, list)
    {
      assert list[i..][0] == list[i] && list[i..][1..] == list[i + 1..];
      FailFirst(error, list[i..]);
      error := error[list[i] := ERROR];
    }
    NoneFailed(error);
  }

  // ---------------------------------------------------------------- threads resumed with success

  predicate IsWoken(pending: map<Tid, Err>, t: Tid) {
    t in pending && pending[t] == EOK
  }

  /** The threads that have been resumed without an error and have not run yet. */
  ghost function Woken(pending: map<Tid, Err>): set<Tid> {
    set t | t in pending && IsWoken(pending, t)
  }

  lemma WokenMore(pending: map<Tid, Err>, t: Tid)
    requires t !in pending
    ensures |Woken(pending[t := EOK])| == |Woken(pending)| + 1
  {
    var before, after := Woken(pending), Woken(pending[t := EOK]);
    forall u ensures u in after <==> u in before || u == t {
      assert u != t ==> (IsWoken(pending[t := EOK], u) <==> IsWoken(pending, u));
    }
    assert after == before + {t};
  }

  /** A woken thread that runs takes at most its own wakeup with it. */
  lemma WokenLess(pending: map<Tid, Err>, t: Tid)
    requires t in pending
    ensures |Woken(pending)| == |Woken(pending - {t})| + if pending[t] == EOK then 1 else 0
  {
    var before, after := Woken(pending), Woken(pending - {t});
    forall u ensures u in before <==> u in after || (u == t && pending[t] == EOK) {
      assert u != t ==> (IsWoken(pending - {t}, u) <==> IsWoken(pending, u));
    }
    assert before == if pending[t] == EOK then after + {t} else after;
  }

  /** Resuming threads with an error wakes none in this sense. */
  lemma WokenFailed(pending: map<Tid, Err>, list: seq<Tid>)
    requires forall t :: t in list ==> t !in pending
    ensures Woken(Failed(pending, list)) == Woken(pending)
  {
    forall u ensures u in Woken(Failed(pending, list)) <==> u in Woken(pending) {
      assert IsWoken(Failed(pending, list), u) <==> IsWoken(pending, u);
    }
  }
}
