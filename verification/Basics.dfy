/** What all modules share: optional values, and sequences without repetitions. */
module Basics {

  datatype Option<+T> = None | Some(value: T)

  ghost predicate Distinct<T>(s: seq<T>) {
    forall i, j :: 0 <= i < j < |s| ==> s[i] != s[j]
  }

  function InsertAt<T>(s: seq<T>, i: nat, x: T): seq<T>
    requires i <= |s|
  {
    s[..i] + [x] + s[i..]
  }

  function RemoveAt<T>(s: seq<T>, i: nat): seq<T>
    requires i < |s|
  {
    s[..i] + s[i + 1..]
  }

  lemma InsertThenRemove<T>(s: seq<T>, i: nat, x: T)
    requires i <= |s|
    ensures RemoveAt(InsertAt(s, i, x), i) == s
  {
  }

  lemma InsertAtAt<T>(s: seq<T>, i: nat, x: T)
    requires i <= |s|
    ensures var t := InsertAt(s, i, x);
            && |t| == |s| + 1 && t[i] == x
            && (forall k :: 0 <= k < i ==> t[k] == s[k])
            && (forall k :: i < k < |t| ==> t[k] == s[k - 1])
  {
  }

  lemma RemoveAtAt<T>(s: seq<T>, i: nat)
    requires i < |s|
    ensures var t := RemoveAt(s, i);
            && |t| == |s| - 1
            && (forall k :: 0 <= k < i ==> t[k] == s[k])
            && (forall k :: i <= k < |t| ==> t[k] == s[k + 1])
  {
  }

  lemma InsertDistinct<T>(s: seq<T>, i: nat, x: T)
    requires i <= |s| && Distinct(s) && x !in s
    ensures Distinct(InsertAt(s, i, x))
  {
    InsertAtAt(s, i, x);
  }

  lemma RemoveDistinct<T>(s: seq<T>, i: nat)
    requires i < |s| && Distinct(s)
    ensures Distinct(RemoveAt(s, i)) && s[i] !in RemoveAt(s, i)
    ensures forall x :: x in s && x != s[i] ==> x in RemoveAt(s, i)
  {
    RemoveAtAt(s, i);
    var t := RemoveAt(s, i);
    forall x | x in s && x != s[i] ensures x in t {
      var k :| 0 <= k < |s| && s[k] == x;
      assert t[if k < i then k else k - 1] == x;
    }
  }

  /** The list without t. */
  function Erase<T(==)>(s: seq<T>, t: T): (r: seq<T>)
    ensures forall i :: 0 <= i < |r| ==> r[i] in s && r[i] != t
  {
    if s == [] then [] else if s[0] == t then Erase(s[1..], t) else [s[0]] + Erase(s[1..], t)
  }

  lemma {:induction false} EraseProps<T>(s: seq<T>, t: T)
    ensures t !in Erase(s, t)
    ensures forall x :: x in Erase(s, t) <==> x in s && x != t
    ensures t !in s ==> Erase(s, t) == s
  {
    if s != [] {
      EraseProps(s[1..], t);
      assert s == [s[0]] + s[1..];
    }
  }

  lemma {:induction false} EraseAt<T>(s: seq<T>, i: nat)
    requires i < |s| && Distinct(s)
    ensures Erase(s, s[i]) == RemoveAt(s, i)
  {
    if i == 0 {
      EraseProps(s[1..], s[0]);
    } else {
      EraseAt(s[1..], i - 1);
      assert s[1..][i - 1] == s[i];
    }
  }

  lemma EraseDistinct<T>(s: seq<T>, t: T)
    requires Distinct(s)
    ensures Distinct(Erase(s, t))
  {
    EraseProps(s, t);
    if t in s {
      var i :| 0 <= i < |s| && s[i] == t;
      EraseAt(s, i);
      RemoveDistinct(s, i);
    }
  }

  lemma AppendDistinct<T>(s: seq<T>, t: T)
    requires Distinct(s) && t !in s
    ensures Distinct(s + [t])
  {
  }

  lemma InsertMembers<T>(s: seq<T>, p: nat, t: T, x: T)
    requires p <= |s|
    ensures x in InsertAt(s, p, t) <==> x in s || x == t
  {
    assert s == s[..p] + s[p..];
  }

  lemma Behead<T>(s: seq<T>)
    requires s != [] && Distinct(s)
    ensures Distinct(s[1..]) && s[0] !in s[1..] && forall x :: x in s[1..] <==> x in s && x != s[0]
  {
    assert s == [s[0]] + s[1..];
  }

  lemma DistinctAt<T>(s: seq<T>, i: nat, j: nat)
    requires Distinct(s) && i < |s| && j < |s| && i != j
    ensures s[i] != s[j]
  {
  }
}
