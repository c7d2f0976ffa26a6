/** The suspended-thread list of an IPC object, src/ipc.c, as the intrusive list it is: the list head in the
    object and the `tlist` node of every waiting thread, linked to a ring. */
module SuspendLists {
  import opened Basics
  import opened IntrusiveList
  import opened WaitList

  /** suspend_thread of the object, or tlist of a thread */
  datatype ListNode = Head | Node(thread: Tid)

  function RingOf(waiters: seq<Tid>): (s: seq<ListNode>)
    ensures |s| == |waiters| + 1 && s[0] == Head && forall i :: 0 <= i < |waiters| ==> s[i + 1] == Node(waiters[i])
  {
    [Head] + seq(|waiters|, i requires 0 <= i < |waiters| => Node(waiters[i]))
  }

  lemma RingOfInsert(waiters: seq<Tid>, i: nat, t: Tid)
    requires i <= |waiters|
    ensures RingOf(InsertAt(waiters, i, t))
            == if i == |waiters| then RingOf(waiters) + [Node(t)] else InsertAt(RingOf(waiters), i + 1, Node(t))
  {
    hide RingOf;
    InsertAtAt(waiters, i, t);
    InsertAtAt(RingOf(waiters), i + 1, Node(t));
    var a, b := RingOf(InsertAt(waiters, i, t)), InsertAt(RingOf(waiters), i + 1, Node(t));
    if i == |waiters| {
      InsertAtEnd(RingOf(waiters), Node(t));
    }
    hide InsertAt;
    forall k | 0 <= k < |a| ensures a[k] == b[k] {
      assert k > 0 ==> a[k] == Node(InsertAt(waiters, i, t)[k - 1]);
    }
  }

  lemma InsertAtEnd<T>(s: seq<T>, x: T)
    ensures InsertAt(s, |s|, x) == s + [x]
  {
  }

  lemma RingOfRemove(waiters: seq<Tid>, i: nat)
    requires i < |waiters|
    ensures RingOf(RemoveAt(waiters, i)) == RemoveAt(RingOf(waiters), i + 1)
  {
    hide RingOf;
    RemoveAtAt(waiters, i);
    RemoveAtAt(RingOf(waiters), i + 1);
    var a, b := RingOf(RemoveAt(waiters, i)), RemoveAt(RingOf(waiters), i + 1);
    hide RemoveAt;
    forall k | 0 <= k < |a| ensures a[k] == b[k] {
      assert k > 0 ==> a[k] == Node(RemoveAt(waiters, i)[k - 1]);
    }
  }

  class SuspendList {
    const mem: ListMemory<ListNode>
    /** The suspended threads, in list order */
    ghost var waiters: seq<Tid>

    ghost predicate Valid()
      reads this, mem
    {
      Ring(mem.next, mem.prev, RingOf(waiters))
    }

    /** rt_ipc_object_init */
    constructor ()
      ensures Valid() && fresh(mem) && waiters == []
    {
      mem := new ListMemory();
      waiters := [];
      new;
      mem.Init(Head);
    }

    /** rt_list_isempty of the list */
    method IsEmpty() returns (empty: bool)
      requires Valid()
      ensures empty <==> waiters == []
    {
      empty := mem.IsEmpty(Head, RingOf(waiters));
    }

    /** The node after node i of the ring */
    method After(n: ListNode, ghost i: nat) returns (next: ListNode)
      requires Valid() && i <= |waiters| && n == RingOf(waiters)[i]
      ensures next == if i < |waiters| then Node(waiters[i]) else Head
    {
      RingNeighbours(mem.next, mem.prev, RingOf(waiters), i);
      next := mem.next[n];
    }

    /** rt_list_insert_before with the node of thread t, in front of node n */
    method Insert(n: ListNode, t: Tid, ghost i: nat)
      requires Valid() && i <= |waiters| && t !in waiters
      requires n == if i < |waiters| then Node(waiters[i]) else Head
      modifies this, mem
      ensures Valid() && waiters == InsertAt(old(waiters), i, t)
    {
      hide Ring, InsertAt;
      ghost var s := RingOf(waiters);
      RingOfInsert(waiters, i, t);
      assert Node(t) !in s by {
        assert forall k :: 0 < k < |s| ==> s[k] == Node(waiters[k - 1]);
      }
      mem.InsertBefore(n, Node(t), s, if i < |waiters| then i + 1 else 0);
      waiters := InsertAt(waiters, i, t);
    }

    /** rt_ipc_list_suspend: a PRIO list is searched for the first less urgent thread. */
    method Suspend(flag: Flag, currentPriority: map<Tid, nat>, thread: Tid)
      requires Valid() && thread in currentPriority && thread !in waiters && forall w :: w in waiters ==> w in currentPriority
      modifies this, mem
      ensures Valid() && waiters == Queued(flag, old(waiters), currentPriority, thread)
    {
      ghost var i := |waiters|;
      var n := Head;
      if flag == PRIO {
        n, i := FindPlace(currentPriority, currentPriority[thread]);
      }
      hide Ring, PrioPlace;
      Insert(n, thread, i);
    }

    /** The search loop of rt_ipc_list_suspend */
    method FindPlace(currentPriority: map<Tid, nat>, p: nat) returns (n: ListNode, ghost i: nat)
      requires Valid() && forall w :: w in waiters ==> w in currentPriority
      ensures i == PrioPlace(waiters, currentPriority, p)
      ensures n == var place := PrioPlace(waiters, currentPriority, p);
                   if place < |waiters| then Node(waiters[place]) else Head
    {
      hide Ring;
      i := 0;
      n := After(Head, 0);
      while n != Head
        invariant i <= |waiters| && n == if i < |waiters| then Node(waiters[i]) else Head
        invariant PrioPlace(waiters, currentPriority, p) == i + PrioPlace(waiters[i..], currentPriority, p)
        decreases |waiters| - i
      {
        assert waiters[i..][0] == waiters[i] && waiters[i..][1..] == waiters[i + 1..];
        if p < currentPriority[n.thread] {
          break;
        }
        n := After(n, i + 1);
        i := i + 1;
      }
    }

    /** rt_list_remove of the node of a waiting thread */
    method Remove(t: Tid, ghost i: nat)
      requires Valid() && i < |waiters| && waiters[i] == t
      modifies this, mem
      ensures Valid() && waiters == RemoveAt(old(waiters), i)
    {
      hide Ring, RemoveAt;
      RingOfRemove(waiters, i);
      mem.Remove(Node(t), RingOf(waiters), i + 1);
      waiters := RemoveAt(waiters, i);
    }

    /** Taking the first waiting thread off the list, as rt_ipc_list_resume does */
    method RemoveFirst() returns (t: Tid)
      requires Valid() && waiters != []
      modifies this, mem
      ensures Valid() && t == old(waiters)[0] && waiters == old(waiters)[1..]
    {
      hide Ring;
      var n := After(Head, 0);
      t := n.thread;
      Remove(t, 0);
    }

    /** rt_ipc_list_resume_all: each thread gets an error and leaves the list. */
    method ResumeAll(before: map<Tid, Err>) returns (error: map<Tid, Err>)
      requires Valid()
      modifies this, mem
      ensures Valid() && waiters == [] && error == Failed(before, old(waiters))
    {
      hide Ring, Valid, Failed;
      error := before;
      var empty := IsEmpty();
      NoneFailed(before);
      while !empty
        invariant Valid() && (empty <==> waiters == [])
        invariant Failed(error, waiters) == Failed(before, old(waiters))
        decreases |waiters|
      {
        FailFirst(error, waiters);
        var thread := RemoveFirst();
        error := error[thread := ERROR];
        empty := IsEmpty();
      }
      NoneFailed(error);
    }
  }
}
