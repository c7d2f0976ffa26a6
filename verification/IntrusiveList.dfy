/** The circular doubly linked lists of include/rtservice.h.

    A list node is any value; the `next` and `prev` members of all nodes in memory are two maps,
    so that two pointers to one node denote one entry.  `Ring` ties the two maps to the sequence
    of nodes met from a given node; the list head is a node like any other.  */
module IntrusiveList {
  import opened Basics

  /** The position after position i, around the ring. */
  function After(n: nat, i: nat): (j: nat)
    requires i < n
    ensures j < n
  {
    if i + 1 < n then i + 1 else 0
  }

  /** Position i and the position after it point at each other. */
  ghost predicate Linked<T(!new)>(next: map<T, T>, prev: map<T, T>, s: seq<T>, i: nat)
    requires i < |s|
  {
    var x, y := s[i], s[After(|s|, i)];
    x in next && y in prev && next[x] == y && prev[y] == x
  }

  /** Following `next` from s[0] visits exactly s and comes back; `prev` is the way back. */
  ghost predicate Ring<T(!new)>(next: map<T, T>, prev: map<T, T>, s: seq<T>) {
    && s != []
    && Distinct(s)
    && forall i :: 0 <= i < |s| ==> Linked(next, prev, s, i)
  }

  /** The memory after rt_list_insert_after(a, x): both maps, in terms of the maps before. */
  function LinkedNext<T>(next: map<T, T>, a: T, x: T): map<T, T>
    requires a in next
  {
    next[x := next[a]][a := x]
  }

  function LinkedPrev<T>(next: map<T, T>, prev: map<T, T>, a: T, x: T): map<T, T>
    requires a in next
  {
    prev[next[a] := x][x := a]
  }

  /** The node before and the node after position i. */
  lemma RingNeighbours<T(!new)>(next: map<T, T>, prev: map<T, T>, s: seq<T>, i: nat)
    requires Ring(next, prev, s) && i < |s|
    ensures s[i] in next && next[s[i]] == s[if i + 1 < |s| then i + 1 else 0]
    ensures s[i] in prev && prev[s[i]] == s[if i > 0 then i - 1 else |s| - 1]
  {
    assert Linked(next, prev, s, i);
    assert Linked(next, prev, s, if i > 0 then i - 1 else |s| - 1);
  }

  lemma {:induction false} LinkAfter<T(!new)>(next: map<T, T>, prev: map<T, T>, s: seq<T>, i: nat, x: T)
    requires Ring(next, prev, s) && i < |s| && x !in s
    ensures s[i] in next
    ensures Ring(LinkedNext(next, s[i], x), LinkedPrev(next, prev, s[i], x), InsertAt(s, i + 1, x))
  {
    hide InsertAt, Distinct;
    RingNeighbours(next, prev, s, i);
    var t := InsertAt(s, i + 1, x);
    InsertDistinct(s, i + 1, x);
    InsertAtAt(s, i + 1, x);
    var next', prev' := LinkedNext(next, s[i], x), LinkedPrev(next, prev, s[i], x);
    forall k | 0 <= k < |t| ensures Linked(next', prev', t, k) {
      if k != i && k != i + 1 {
        var k' := if k < i then k else k - 1;
        assert Linked(next, prev, s, k');
        DistinctAt(s, k', i);
        DistinctAt(s, After(|s|, k'), After(|s|, i));
      }
    }
  }

  /** Taking node s[i] out, as rt_list_remove does, leaves the ring of the others. */
  lemma {:induction false} UnlinkAt<T(!new)>(next: map<T, T>, prev: map<T, T>, s: seq<T>, i: nat)
    requires Ring(next, prev, s) && i < |s| && |s| > 1
    ensures s[i] in next && s[i] in prev
    ensures Ring(next[prev[s[i]] := next[s[i]]], prev[next[s[i]] := prev[s[i]]], RemoveAt(s, i))
  {
    hide RemoveAt, Distinct;
    RingNeighbours(next, prev, s, i);
    var t := RemoveAt(s, i);
    RemoveDistinct(s, i);
    RemoveAtAt(s, i);
    var p, n := if i > 0 then i - 1 else |s| - 1, After(|s|, i);
    var next', prev' := next[s[p] := s[n]], prev[s[n] := s[p]];
    forall k | 0 <= k < |t| ensures Linked(next', prev', t, k) {
      var k' := if k < i then k else k + 1;
      assert Linked(next, prev, s, k');
      if k' != p {
        DistinctAt(s, k', p);
        DistinctAt(s, After(|s|, k'), n);
      }
    }
  }

  /** The memory after rt_list_remove(n). */
  function UnlinkedNext<T>(next: map<T, T>, prev: map<T, T>, n: T): map<T, T>
    requires n in next && n in prev
  {
    next[prev[n] := next[n]][n := n]
  }

  /** The node taken out becomes a ring of its own, the rest stays a ring, nothing else moves. */
  lemma {:induction false} RemoveRing<T(!new)>(next: map<T, T>, prev: map<T, T>, s: seq<T>, i: nat)
    requires Ring(next, prev, s) && i < |s|
    ensures s[i] in next && s[i] in prev
    ensures var next', prev' := UnlinkedNext(next, prev, s[i]), UnlinkedNext(prev, next, s[i]);
            && next'.Keys == next.Keys && prev'.Keys == prev.Keys
            && Ring(next', prev', [s[i]])
            && (|s| > 1 ==> Ring(next', prev', RemoveAt(s, i)))
            && (forall x :: x !in s && x in next ==> next'[x] == next[x])
            && (forall x :: x !in s && x in prev ==> prev'[x] == prev[x])
  {
    hide RemoveAt, Linked;
    var n := s[i];
    RingNeighbours(next, prev, s, i);
    RingInMemory(next, prev, s);
    var next', prev' := UnlinkedNext(next, prev, n), UnlinkedNext(prev, next, n);
    SingleRing(next', prev', n);
    if |s| > 1 {
      UnlinkAt(next, prev, s, i);
      RemoveDistinct(s, i);
      var next1, prev1 := next[prev[n] := next[n]], prev[next[n] := prev[n]];
      RingInMemory(next1, prev1, RemoveAt(s, i));
      RingFrame(next1, prev1, next', prev', RemoveAt(s, i));
    }
  }

  lemma SingleRing<T(!new)>(next: map<T, T>, prev: map<T, T>, n: T)
    requires n in next && n in prev && next[n] == n && prev[n] == n
    ensures Ring(next, prev, [n])
  {
    assert After(1, 0) == 0;
    assert Linked(next, prev, [n], 0);
  }

  lemma RingInMemory<T(!new)>(next: map<T, T>, prev: map<T, T>, s: seq<T>)
    requires Ring(next, prev, s)
    ensures forall x :: x in s ==> x in next && x in prev
  {
    forall x | x in s ensures x in next && x in prev {
      var i :| 0 <= i < |s| && s[i] == x;
      RingNeighbours(next, prev, s, i);
    }
  }

  /** A ring depends only on the links of its own nodes. */
  lemma RingFrame<T(!new)>(next: map<T, T>, prev: map<T, T>, next': map<T, T>, prev': map<T, T>, s: seq<T>)
    requires Ring(next, prev, s)
    requires forall x :: x in s ==> x in next' && x in next && next'[x] == next[x]
    requires forall x :: x in s ==> x in prev' && x in prev && prev'[x] == prev[x]
    ensures Ring(next', prev', s)
  {
    forall i | 0 <= i < |s| ensures Linked(next', prev', s, i) {
      assert Linked(next, prev, s, i);
    }
  }

  /** A ring is determined by its first node: two rings from one node are the same sequence. */
  lemma {:induction false} RingUnique<T(!new)>(next: map<T, T>, prev: map<T, T>, s: seq<T>, t: seq<T>)
    requires Ring(next, prev, s) && Ring(next, prev, t) && s[0] == t[0]
    ensures s == t
  {
    var k := if |s| < |t| then |s| - 1 else |t| - 1;
    RingPrefix(next, prev, s, t, k);
    RingNeighbours(next, prev, s, k);
    RingNeighbours(next, prev, t, k);
    assert s[k] == t[k];
  }

  lemma {:induction false} RingPrefix<T(!new)>(next: map<T, T>, prev: map<T, T>, s: seq<T>, t: seq<T>, k: nat)
    requires Ring(next, prev, s) && Ring(next, prev, t) && s[0] == t[0] && k < |s| && k < |t|
    ensures forall j :: 0 <= j <= k ==> s[j] == t[j]
  {
    if k > 0 {
      RingPrefix(next, prev, s, t, k - 1);
      assert s[k - 1] == t[k - 1];
      RingNeighbours(next, prev, s, k - 1);
      RingNeighbours(next, prev, t, k - 1);
    }
  }

  /** Memory holding list nodes, and the inline functions that relink them in place. */
  class ListMemory<T(==, !new)> {
    var next: map<T, T>
    var prev: map<T, T>

    constructor ()
      ensures next == map[] && prev == map[]
    {
      next := map[];
      prev := map[];
    }

    /** rt_list_init */
    method Init(l: T)
      modifies this
      ensures next == old(next)[l := l] && prev == old(prev)[l := l]
      ensures Ring(next, prev, [l])
    {
      prev := prev[l := l];
      next := next[l := prev[l]];
      SingleRing(next, prev, l);
    }

    /** rt_list_insert_after */
    method InsertAfter(l: T, n: T)
      requires l in next
      modifies this
      ensures next == LinkedNext(old(next), l, n)
      ensures prev == LinkedPrev(old(next), old(prev), l, n)
    {
      prev := prev[next[l] := n];
      next := next[n := next[l]];
      next := next[l := n];
      prev := prev[n := l];
    }

    /** rt_list_insert_before: in front of node i of the ring, which for the first node is its end. */
    method InsertBefore(l: T, n: T, ghost s: seq<T>, ghost i: nat)
      requires Ring(next, prev, s) && i < |s| && s[i] == l && n !in s
      modifies this
      ensures Ring(next, prev, if i == 0 then s + [n] else InsertAt(s, i, n))
      ensures forall x :: x !in s && x != n ==> (x in next <==> x in old(next)) && (x in prev <==> x in old(prev))
      ensures forall x :: x !in s && x != n && x in next ==> next[x] == old(next)[x]
      ensures forall x :: x !in s && x != n && x in prev ==> prev[x] == old(prev)[x]
    {
      ghost var p := if i == 0 then |s| - 1 else i - 1;
      LinkAfter(next, prev, s, p, n);
      RingNeighbours(next, prev, s, i);
      RingNeighbours(next, prev, s, p);
      ghost var before, next0, prev0 := s[p], next, prev;
      next := next[prev[l] := n];
      prev := prev[n := prev[l]];
      prev := prev[l := n];
      next := next[n := l];
      assert i == 0 ==> InsertAt(s, |s|, n) == s + [n];
      hide Ring, InsertAt;
      assert next == LinkedNext(next0, before, n) && prev == LinkedPrev(next0, prev0, before, n);
    }

    /** rt_list_remove: the rest stays a ring and the node becomes a ring of its own. */
    method Remove(n: T, ghost s: seq<T>, ghost i: nat)
      requires Ring(next, prev, s) && i < |s| && s[i] == n
      modifies this
      ensures Ring(next, prev, [n])
      ensures |s| > 1 ==> Ring(next, prev, RemoveAt(s, i))
      ensures next.Keys == old(next).Keys && prev.Keys == old(prev).Keys
      ensures forall x :: x !in s && x in next ==> next[x] == old(next)[x]
      ensures forall x :: x !in s && x in prev ==> prev[x] == old(prev)[x]
    {
      hide Ring, RemoveAt;
      RemoveRing(next, prev, s, i);
      RingInMemory(next, prev, s);
      ghost var next0, prev0 := next, prev;
      prev := prev[next[n] := prev[n]];
      next := next[prev[n] := next[n]];
      prev := prev[n := n];
      next := next[n := n];
      assert next == UnlinkedNext(next0, prev0, n) && prev == UnlinkedNext(prev0, next0, n);
    }

    /** rt_list_isempty */
    method IsEmpty(l: T, ghost s: seq<T>) returns (empty: bool)
      requires Ring(next, prev, s) && s[0] == l
      ensures empty <==> |s| == 1
    {
      RingNeighbours(next, prev, s, 0);
      empty := next[l] == l;
    }

    /** rt_list_len */
    method Len(l: T, ghost s: seq<T>) returns (len: nat)
      requires Ring(next, prev, s) && s[0] == l
      ensures len == |s| - 1
    {
      len := 0;
      var p := l;
      RingNeighbours(next, prev, s, 0);
      while next[p] != l
        invariant len < |s| && p == s[len] && p in next
        invariant next[p] == s[After(|s|, len)]
        decreases |s| - len
      {
        p := next[p];
        len := len + 1;
        RingNeighbours(next, prev, s, len);
      }
    }
  }
}
