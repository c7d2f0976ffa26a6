/** The page allocator of src/slab.c: a list of free page runs, kept in the free pages themselves.
    Addresses are page numbers.  The list is always the one canonical form of the set of free pages. */
module PageRuns {
  import opened Basics

  datatype Run = Run(start: nat, len: nat)

  type Runs = seq<Run>

  /** Run i is not empty, and there is an allocated page between it and the next. */
  ghost predicate Gap(l: Runs, i: nat)
    requires i < |l|
  {
    l[i].len > 0 && (i + 1 < |l| ==> l[i].start + l[i].len < l[i + 1].start)
  }

  /** Strictly ascending, disjoint and maximal runs. */
  ghost predicate Canonical(l: Runs) {
    forall i :: 0 <= i < |l| ==> Gap(l, i)
  }

  predicate InRun(r: Run, p: nat) {
    r.start <= p < r.start + r.len
  }

  /** Page p is free. */
  ghost predicate Free(l: Runs, p: nat) {
    exists i :: 0 <= i < |l| && InRun(l[i], p)
  }

  lemma {:induction false} Ascending(l: Runs, i: nat, j: nat)
    requires Canonical(l) && i < j < |l|
    ensures l[i].start + l[i].len < l[j].start
    decreases j - i
  {
    assert Gap(l, j - 1) && Gap(l, i);
    if i < j - 1 {
      Ascending(l, i, j - 1);
    }
  }

  lemma StartFree(l: Runs)
    requires Canonical(l) && l != []
    ensures Free(l, l[0].start)
  {
    assert Gap(l, 0);
    assert InRun(l[0], l[0].start);
  }

  lemma CanonicalTail(l: Runs)
    requires l != [] && Canonical(l)
    ensures Canonical(l[1..]) && l[0].len > 0
    ensures forall p :: Free(l, p) <==> InRun(l[0], p) || Free(l[1..], p)
    ensures forall p :: Free(l[1..], p) ==> l[0].start + l[0].len < p
  {
    assert Gap(l, 0);
    var t := l[1..];
    forall i | 0 <= i < |t| ensures Gap(t, i) {
      assert Gap(l, i + 1);
    }
    forall p | Free(t, p) ensures l[0].start + l[0].len < p && Free(l, p) {
      var i :| 0 <= i < |t| && InRun(t[i], p);
      Ascending(l, 0, i + 1);
      assert InRun(l[i + 1], p);
    }
    forall p | Free(l, p) ensures InRun(l[0], p) || Free(t, p) {
      var i :| 0 <= i < |l| && InRun(l[i], p);
      if i > 0 {
        assert InRun(t[i - 1], p);
      }
    }
  }

  lemma CanonicalCons(r: Run, t: Runs)
    requires Canonical(t) && r.len > 0 && (t != [] ==> r.start + r.len < t[0].start)
    ensures Canonical([r] + t)
    ensures forall p :: Free([r] + t, p) <==> InRun(r, p) || Free(t, p)
  {
    var l := [r] + t;
    forall i | 0 <= i < |l| ensures Gap(l, i) {
      if i > 0 {
        assert Gap(t, i - 1);
      }
    }
    assert l[1..] == t;
    CanonicalTail(l);
  }

  /** The free pages determine the list: two canonical lists of the same pages are the same list. */
  lemma {:induction false} CanonicalUnique(l: Runs, m: Runs)
    requires Canonical(l) && Canonical(m) && forall p :: Free(l, p) <==> Free(m, p)
    ensures l == m
    decreases |l| + |m|
  {
    if l == [] {
      if m != [] {
        StartFree(m);
      }
    } else if m == [] {
      StartFree(l);
    } else {
      FirstAgrees(l, m);
      FirstAgrees(m, l);
      CanonicalTail(l);
      CanonicalTail(m);
      forall p ensures Free(l[1..], p) <==> Free(m[1..], p) {
        assert Free(l, p) <==> Free(m, p);
      }
      CanonicalUnique(l[1..], m[1..]);
    }
  }

  /** The first run of l starts no earlier than m's, and ends no later if it starts with it. */
  lemma FirstAgrees(l: Runs, m: Runs)
    requires Canonical(l) && Canonical(m) && l != [] && m != [] && forall p :: Free(l, p) <==> Free(m, p)
    ensures m[0].start <= l[0].start && (m[0].start == l[0].start ==> l[0].len <= m[0].len)
  {
    CanonicalTail(l);
    CanonicalTail(m);
    assert InRun(l[0], l[0].start);
    assert Free(m, l[0].start);
    var p := m[0].start + m[0].len;
    assert !InRun(m[0], p) && !Free(m, p);
    assert !Free(l, p);
    assert !InRun(l[0], p);
  }

  // ---------------------------------------------------------------- effects

  /** The first run of at least n pages, or |l| */
  function FirstFit(l: Runs, n: nat): (i: nat)
    ensures i <= |l| && (i < |l| ==> l[i].len >= n) && forall j :: 0 <= j < i ==> l[j].len < n
  {
    if l == [] || l[0].len >= n then 0
    else
      var i := FirstFit(l[1..], n);
      assert forall j :: 1 <= j < 1 + i ==> l[j] == l[1..][j - 1];
      1 + i
  }

  /** The list without the first n pages of run i */
  function Taken(l: Runs, i: nat, n: nat): Runs
    requires i < |l| && n <= l[i].len
  {
    if l[i].len > n then l[i := Run(l[i].start + n, l[i].len - n)] else RemoveAt(l, i)
  }

  /** The list with the pages from a on, n of them, put back */
  function Returned(l: Runs, a: nat, n: nat): Runs {
    if l == [] then [Run(a, n)]
    else if l[0].start + l[0].len == a then
      if |l| > 1 && l[0].start + l[0].len + n == l[1].start then [Run(l[0].start, l[0].len + n + l[1].len)] + l[2..]
      else [Run(l[0].start, l[0].len + n)] + l[1..]
    else if l[0].start == a + n then [Run(a, n + l[0].len)] + l[1..]
    else if l[0].start > a + n then [Run(a, n)] + l
    else [l[0]] + Returned(l[1..], a, n)
  }

  /** Allocation takes exactly its run of pages out of the free ones. */
  lemma {:induction false} TakenExact(l: Runs, i: nat, n: nat)
    requires Canonical(l) && i < |l| && 0 < n <= l[i].len
    ensures Canonical(Taken(l, i, n))
    ensures forall p :: Free(Taken(l, i, n), p) <==> Free(l, p) && !InRun(Run(l[i].start, n), p)
    decreases i
  {
    CanonicalTail(l);
    if i == 0 {
      if l[0].len > n {
        assert Gap(l, 0);
        CanonicalCons(Run(l[0].start + n, l[0].len - n), l[1..]);
        assert Taken(l, 0, n) == [Run(l[0].start + n, l[0].len - n)] + l[1..];
      } else {
        assert Taken(l, 0, n) == l[1..];
      }
    } else {
      TakenExact(l[1..], i - 1, n);
      var t := Taken(l[1..], i - 1, n);
      assert Taken(l, i, n) == [l[0]] + t;
      assert t != [] ==> Free(t, t[0].start) by {
        if t != [] {
          assert Gap(t, 0);
          assert InRun(t[0], t[0].start);
        }
      }
      CanonicalCons(l[0], t);
      Ascending(l, 0, i);
    }
  }

  /** None of n pages from a on is free. */
  ghost predicate Absent(l: Runs, a: nat, n: nat) {
    forall p :: a <= p < a + n ==> !Free(l, p)
  }

  /** Putting pages back makes exactly them free, and leaves the list canonical. */
  lemma {:induction false} ReturnedExact(l: Runs, a: nat, n: nat)
    requires Canonical(l) && n > 0 && Absent(l, a, n)
    ensures Canonical(Returned(l, a, n))
    ensures forall p :: Free(Returned(l, a, n), p) <==> Free(l, p) || InRun(Run(a, n), p)
    decreases |l|
  {
    hide Canonical, Free, Gap;
    if l == [] {
      CanonicalNil();
      CanonicalCons(Run(a, n), []);
      assert [Run(a, n)] + [] == [Run(a, n)];
    } else {
      CanonicalTail(l);
      var b, t := l[0], l[1..];
      StartFree(l);
      if t != [] {
        StartFree(t);
      }
      if b.start + b.len == a {
        ReturnedBehind(l, a, n);
      } else if b.start == a + n {
        CanonicalCons(Run(a, n + b.len), t);
      } else if b.start > a + n {
        CanonicalCons(Run(a, n), l);
      } else {
        assert !(a <= b.start < a + n);
        assert InRun(b, a) ==> Free(l, a);
        ReturnedExact(t, a, n);
        var r := Returned(t, a, n);
        StartFree(r);
        CanonicalCons(b, r);
      }
    }
  }

  lemma CanonicalNil()
    ensures Canonical([]) && forall p :: !Free([], p)
  {
  }

  /** The pages put back continue the first run, and may reach the second. */
  lemma ReturnedBehind(l: Runs, a: nat, n: nat)
    requires Canonical(l) && l != [] && n > 0 && Absent(l, a, n) && l[0].start + l[0].len == a
    ensures Canonical(Returned(l, a, n))
    ensures forall p :: Free(Returned(l, a, n), p) <==> Free(l, p) || InRun(Run(a, n), p)
  {
    hide Canonical, Free, Gap;
    CanonicalTail(l);
    var b, t := l[0], l[1..];
    if t != [] {
      StartFree(t);
      assert !(a <= t[0].start < a + n);
    }
    if |l| > 1 && a + n == l[1].start {
      CanonicalTail(t);
      assert t[1..] == l[2..];
      if t[1..] != [] {
        StartFree(t[1..]);
      }
      CanonicalCons(Run(b.start, b.len + n + l[1].len), l[2..]);
    } else {
      CanonicalCons(Run(b.start, b.len + n), t);
    }
  }

  /** Freeing the pages just allocated gives back the identical list. */
  lemma ReturnUndoesTake(l: Runs, i: nat, n: nat)
    requires Canonical(l) && i < |l| && 0 < n <= l[i].len
    ensures Returned(Taken(l, i, n), l[i].start, n) == l
  {
    var t, a := Taken(l, i, n), l[i].start;
    TakenExact(l, i, n);
    forall p | a <= p < a + n ensures !Free(t, p) {
      assert InRun(Run(a, n), p);
    }
    ReturnedExact(t, a, n);
    forall p ensures Free(Returned(t, a, n), p) <==> Free(l, p) {
      if InRun(Run(a, n), p) {
        assert InRun(l[i], p);
      }
    }
    CanonicalUnique(Returned(t, a, n), l);
  }

  // ---------------------------------------------------------------- the list in the pages

  /** &rt_page_list, or the next member of a page head */
  datatype Link = List | Next(page: nat)

  function HeadOf(l: Runs): Option<nat> {
    if l == [] then None else Some(l[0].start)
  }

  /** The page heads from link `at` on hold the runs l. */
  ghost predicate Chained(next: map<nat, Option<nat>>, pages: map<nat, nat>, l: Runs) {
    forall i :: 0 <= i < |l| ==> HeadHolds(next, pages, l, i)
  }

  ghost predicate HeadHolds(next: map<nat, Option<nat>>, pages: map<nat, nat>, l: Runs, i: nat)
    requires i < |l|
  {
    && l[i].start in next && l[i].start in pages
    && pages[l[i].start] == l[i].len && next[l[i].start] == HeadFrom(l, i + 1)
  }

  /** Where the list from run i on begins. */
  function HeadFrom(l: Runs, i: nat): Option<nat> {
    if i < |l| then Some(l[i].start) else None
  }

  lemma HeadAt(next: map<nat, Option<nat>>, pages: map<nat, nat>, l: Runs, i: nat)
    requires Chained(next, pages, l) && i < |l|
    ensures l[i].start in next && l[i].start in pages && pages[l[i].start] == l[i].len
    ensures next[l[i].start] == HeadFrom(l, i + 1)
  {
    assert HeadHolds(next, pages, l, i);
  }

  ghost predicate SameHead(next: map<nat, Option<nat>>, pages: map<nat, nat>, next': map<nat, Option<nat>>, pages': map<nat, nat>, s: nat) {
    s in next' && s in pages' && s in next && s in pages && next'[s] == next[s] && pages'[s] == pages[s]
  }

  /** The runs from i up to j replaced by `mid`, none or one. */
  function Spliced(l: Runs, i: nat, j: nat, mid: Runs): Runs
    requires i <= j <= |l|
  {
    l[..i] + mid + l[j..]
  }

  /** The page heads after the runs from i up to j have been replaced, and the links around them set. */
  lemma SpliceChained(next: map<nat, Option<nat>>, pages: map<nat, nat>, next': map<nat, Option<nat>>, pages': map<nat, nat>,
                      l: Runs, i: nat, j: nat, mid: Runs)
    requires Chained(next, pages, l) && i <= j <= |l| && |mid| <= 1
    requires forall k :: 0 <= k < |l| && (k + 1 < i || j <= k) ==> SameHead(next, pages, next', pages', l[k].start)
    requires i > 0 ==> var s := l[i - 1].start;
                       && s in next' && s in pages' && s in pages && pages'[s] == pages[s]
                       && next'[s] == if mid != [] then Some(mid[0].start) else HeadFrom(l, j)
    requires mid != [] ==> var s := mid[0].start;
                           s in next' && s in pages' && pages'[s] == mid[0].len && next'[s] == HeadFrom(l, j)
    ensures Chained(next', pages', Spliced(l, i, j, mid))
  {
    var m := Spliced(l, i, j, mid);
    var d := i + |mid|;
    assert forall k :: 0 <= k < i ==> m[k] == l[k];
    assert forall k :: d <= k < |m| ==> m[k] == l[k - d + j];
    forall k | 0 <= k < |m| ensures HeadHolds(next', pages', m, k) {
      if k < i {
        HeadAt(next, pages, l, k);
      } else if k >= d {
        HeadAt(next, pages, l, k - d + j);
      }
    }
  }

  /** Runs start at different pages, and a page inside a run starts no other. */
  lemma StartApart(l: Runs, i: nat, k: nat, p: nat)
    requires Canonical(l) && i < |l| && k < |l| && k != i && l[i].start <= p <= l[i].start + l[i].len
    ensures l[k].start != p
  {
    assert Gap(l, i) && Gap(l, k);
    if i < k {
      Ascending(l, i, k);
    } else {
      Ascending(l, k, i);
    }
  }

  class PageAllocator {
    /** rt_page_list */
    var list: Option<nat>
    /** The next and page members of struct rt_page_head, by page number */
    var next: map<nat, Option<nat>>
    var pages: map<nat, nat>
    ghost var runs: Runs

    ghost predicate Valid()
      reads this
    {
      Canonical(runs) && list == HeadOf(runs) && Chained(next, pages, runs)
    }

    /** rt_page_init */
    constructor (addr: nat, npages: nat)
      requires npages > 0
      ensures Valid() && runs == [Run(addr, npages)]
    {
      list := None;
      next, pages := map[], map[];
      runs := [];
      new;
      assert Returned([], addr, npages) == [Run(addr, npages)];
      FreePages(addr, npages);
    }

    /** *prev = n */
    method Store(prev: Link, n: Option<nat>)
      modifies this`list, this`next
      ensures prev.List? ==> list == n && next == old(next)
      ensures prev.Next? ==> list == old(list) && next == old(next)[prev.page := n]
    {
      if prev.List? {
        list := n;
      } else {
        next := next[prev.page := n];
      }
    }

    /** The link that leads to run i. */
    ghost predicate LeadsTo(prev: Link, i: nat)
      reads this`runs
      requires i <= |runs|
    {
      prev == if i == 0 then List else Next(runs[i - 1].start)
    }

    /** rt_page_alloc: the first run that is long enough is cut from its front; None when there is none. */
    method Alloc(npages: nat) returns (b: Option<nat>)
      requires Valid()
      modifies this
      ensures Valid()
      ensures npages == 0 || FirstFit(old(runs), npages) == |old(runs)| ==> b == None && runs == old(runs)
      ensures npages > 0 && FirstFit(old(runs), npages) < |old(runs)| ==>
                var i := FirstFit(old(runs), npages);
                b == Some(old(runs)[i].start) && runs == Taken(old(runs), i, npages)
    {
      hide Canonical, Chained;
      if npages == 0 {
        return None;
      }
      var prev := List;
      ghost var i: nat := 0;
      b := list;
      FitFrom(runs, 0, npages);
      while b.Some?
        invariant Valid() && runs == old(runs) && next == old(next) && pages == old(pages) && i <= |runs| && LeadsTo(prev, i)
        invariant b == HeadFrom(runs, i)
        invariant i <= FirstFit(runs, npages)
        decreases |runs| - i
      {
        HeadAt(next, pages, runs, i);
        FitFrom(runs, i, npages);
        if pages[b.value] > npages {
          var n := b.value + npages;
          next := next[n := next[b.value]];
          pages := pages[n := pages[b.value] - npages];
          Store(prev, Some(n));
          runs := Taken(runs, i, npages);
          TakenExact(old(runs), i, npages);
          TakenSplitChained(old(next), old(pages), old(runs), i, npages);
          break;
        }
        if pages[b.value] == npages {
          Store(prev, next[b.value]);
          runs := Taken(runs, i, npages);
          TakenExact(old(runs), i, npages);
          TakenWholeChained(old(next), old(pages), old(runs), i);
          break;
        }
        prev := Next(b.value);
        b := next[b.value];
        i := i + 1;
      }
    }

    static lemma FitFrom(l: Runs, i: nat, n: nat)
      requires i < |l| ==> i <= FirstFit(l, n)
      ensures i < |l| && l[i].len >= n ==> FirstFit(l, n) == i
      ensures i < |l| && l[i].len < n ==> i + 1 <= FirstFit(l, n)
    {
    }

    static lemma TakenSplitChained(next: map<nat, Option<nat>>, pages: map<nat, nat>, l: Runs, i: nat, n: nat)
      requires Canonical(l) && Chained(next, pages, l) && i < |l| && 0 < n < l[i].len && l[i].start in next
      ensures var b := l[i].start;
              var next1 := next[b + n := next[b]];
              var next2 := if i == 0 then next1 else next1[l[i - 1].start := Some(b + n)];
              Chained(next2, pages[b + n := l[i].len - n], Taken(l, i, n))
    {
      hide Canonical, Chained;
      var b := l[i].start;
      var next1 := next[b + n := next[b]];
      var next2 := if i == 0 then next1 else next1[l[i - 1].start := Some(b + n)];
      var pages2, mid := pages[b + n := l[i].len - n], [Run(b + n, l[i].len - n)];
      forall k | 0 <= k < |l| && (k + 1 < i || i + 1 <= k) ensures SameHead(next, pages, next2, pages2, l[k].start) {
        HeadAt(next, pages, l, k);
        StartApart(l, i, k, b + n);
        if i > 0 {
          StartApart(l, i - 1, k, l[i - 1].start);
        }
      }
      HeadAt(next, pages, l, i);
      if i > 0 {
        HeadAt(next, pages, l, i - 1);
        StartApart(l, i, i - 1, b + n);
      }
      SpliceChained(next, pages, next2, pages2, l, i, i + 1, mid);
      assert Spliced(l, i, i + 1, mid) == Taken(l, i, n);
    }

    static lemma TakenWholeChained(next: map<nat, Option<nat>>, pages: map<nat, nat>, l: Runs, i: nat)
      requires Canonical(l) && Chained(next, pages, l) && i < |l| && l[i].start in next
      ensures var next1 := if i == 0 then next else next[l[i - 1].start := next[l[i].start]];
              Chained(next1, pages, RemoveAt(l, i))
    {
      hide Canonical, Chained;
      var next1 := if i == 0 then next else next[l[i - 1].start := next[l[i].start]];
      forall k | 0 <= k < |l| && (k + 1 < i || i + 1 <= k) ensures SameHead(next, pages, next1, pages, l[k].start) {
        HeadAt(next, pages, l, k);
        if i > 0 {
          StartApart(l, i - 1, k, l[i - 1].start);
        }
      }
      HeadAt(next, pages, l, i);
      if i > 0 {
        HeadAt(next, pages, l, i - 1);
      }
      SpliceChained(next, pages, next1, pages, l, i, i + 1, []);
      assert Spliced(l, i, i + 1, []) == RemoveAt(l, i);
    }

    /** rt_page_free: the pages join the run before them, the run after them, or both. */
    method FreePages(addr: nat, npages: nat)
      requires Valid() && npages > 0 && Absent(runs, addr, npages)
      modifies this
      ensures Valid() && runs == Returned(old(runs), addr, npages)
    {
      hide Canonical, Chained, Absent, Returned;
      ghost var l := runs;
      ReturnedExact(l, addr, npages);
      var n := addr;
      var prev := List;
      var b := list;
      ghost var i: nat := 0;
      assert l[..0] + Returned(l[0..], addr, npages) == Returned(l, addr, npages);
      while b.Some?
        invariant runs == l && list == old(list) && next == old(next) && pages == old(pages) && i <= |l| && LeadsTo(prev, i)
        invariant b == HeadFrom(l, i)
        invariant Returned(l, addr, npages) == l[..i] + Returned(l[i..], addr, npages)
        decreases |l| - i
      {
        HeadAt(next, pages, l, i);
        ReturnedStep(l, i, addr, npages);
        if b.value + pages[b.value] == n {
          JoinBehind(b.value, npages, i, addr);
          return;
        }
        if b.value == n + npages {
          FrontChained(next, pages, l, i, addr, npages);
          pages := pages[n := pages[b.value] + npages];
          next := next[n := next[b.value]];
          Store(prev, Some(n));
          runs := Spliced(l, i, i + 1, [Run(addr, npages + l[i].len)]);
          return;
        }
        if b.value > n + npages {
          break;
        }
        prev := Next(b.value);
        b := next[b.value];
        i := i + 1;
      }
      ReturnedStep(l, i, addr, npages);
      InsertChained(next, pages, l, i, addr, npages);
      pages := pages[n := npages];
      next := next[n := b];
      Store(prev, Some(n));
      runs := Spliced(l, i, i, [Run(addr, npages)]);
    }

    /** The pages continue run i; when they reach the next run it is joined as well. */
    method JoinBehind(b: nat, npages: nat, ghost i: nat, ghost addr: nat)
      requires i < |runs| && b == runs[i].start && addr == b + runs[i].len && npages > 0
      requires Canonical(runs) && list == HeadOf(runs) && Chained(next, pages, runs) && Absent(runs, addr, npages)
      modifies this`next, this`pages, this`runs
      ensures list == HeadOf(runs) && Chained(next, pages, runs)
      ensures runs == var l := old(runs);
                      if i + 1 < |l| && addr + npages == l[i + 1].start
                      then Spliced(l, i, i + 2, [Run(b, l[i].len + npages + l[i + 1].len)])
                      else Spliced(l, i, i + 1, [Run(b, l[i].len + npages)])
    {
      hide Canonical, Chained, Absent;
      ghost var l := runs;
      HeadAt(next, pages, l, i);
      BehindChained(next, pages, l, i, npages);
      pages := pages[b := pages[b] + npages];
      if Some(b + pages[b]) == next[b] {
        HeadAt(old(next), old(pages), l, i + 1);
        StartApart(l, i, i + 1, b);
        var nb := next[b].value;
        pages := pages[b := pages[b] + pages[nb]];
        next := next[b := next[nb]];
        runs := Spliced(l, i, i + 2, [Run(b, l[i].len + npages + l[i + 1].len)]);
      } else {
        runs := Spliced(l, i, i + 1, [Run(b, l[i].len + npages)]);
      }
    }

    static lemma BehindChained(next: map<nat, Option<nat>>, pages: map<nat, nat>, l: Runs, i: nat, n: nat)
      requires Canonical(l) && Chained(next, pages, l) && i < |l|
      ensures var b, r := l[i].start, Run(l[i].start, l[i].len + n);
              Chained(next, pages[b := r.len], Spliced(l, i, i + 1, [r]))
      ensures i + 1 < |l| ==>
                var b, r := l[i].start, Run(l[i].start, l[i].len + n + l[i + 1].len);
                l[i + 1].start in next
                && Chained(next[b := next[l[i + 1].start]], pages[b := l[i].len + n][b := r.len], Spliced(l, i, i + 2, [r]))
    {
      hide Canonical, Chained;
      var b := l[i].start;
      HeadAt(next, pages, l, i);
      var pages1 := pages[b := l[i].len + n];
      forall k | 0 <= k < |l| && (k + 1 < i || i + 1 <= k) ensures SameHead(next, pages, next, pages1, l[k].start) {
        HeadAt(next, pages, l, k);
        StartApart(l, i, k, b);
      }
      if i > 0 {
        HeadAt(next, pages, l, i - 1);
        StartApart(l, i, i - 1, b);
      }
      SpliceChained(next, pages, next, pages1, l, i, i + 1, [Run(b, l[i].len + n)]);
      if i + 1 < |l| {
        HeadAt(next, pages, l, i + 1);
        var next2, pages2 := next[b := next[l[i + 1].start]], pages1[b := l[i].len + n + l[i + 1].len];
        forall k | 0 <= k < |l| && (k + 1 < i || i + 2 <= k) ensures SameHead(next, pages, next2, pages2, l[k].start) {
          HeadAt(next, pages, l, k);
          StartApart(l, i, k, b);
        }
        SpliceChained(next, pages, next2, pages2, l, i, i + 2, [Run(b, l[i].len + n + l[i + 1].len)]);
      }
    }

    static lemma FrontChained(next: map<nat, Option<nat>>, pages: map<nat, nat>, l: Runs, i: nat, a: nat, n: nat)
      requires Canonical(l) && Chained(next, pages, l) && i < |l| && Absent(l, a, n) && n > 0 && l[i].start == a + n
      ensures l[i].start in next
      ensures var next1 := next[a := next[l[i].start]];
              Chained(if i == 0 then next1 else next1[l[i - 1].start := Some(a)], pages[a := l[i].len + n],
                      Spliced(l, i, i + 1, [Run(a, n + l[i].len)]))
    {
      hide Canonical, Chained, Absent;
      HeadAt(next, pages, l, i);
      var next1 := next[a := next[l[i].start]];
      var next2, pages2 := if i == 0 then next1 else next1[l[i - 1].start := Some(a)], pages[a := l[i].len + n];
      AroundNew(next, pages, next2, pages2, l, i, i + 1, a, n);
      SpliceChained(next, pages, next2, pages2, l, i, i + 1, [Run(a, n + l[i].len)]);
    }

    static lemma InsertChained(next: map<nat, Option<nat>>, pages: map<nat, nat>, l: Runs, i: nat, a: nat, n: nat)
      requires Canonical(l) && Chained(next, pages, l) && i <= |l| && Absent(l, a, n) && n > 0
      ensures var next1 := next[a := HeadFrom(l, i)];
              Chained(if i == 0 then next1 else next1[l[i - 1].start := Some(a)], pages[a := n], Spliced(l, i, i, [Run(a, n)]))
    {
      hide Canonical, Chained, Absent;
      var next1 := next[a := HeadFrom(l, i)];
      var next2, pages2 := if i == 0 then next1 else next1[l[i - 1].start := Some(a)], pages[a := n];
      AroundNew(next, pages, next2, pages2, l, i, i, a, n);
      SpliceChained(next, pages, next2, pages2, l, i, i, [Run(a, n)]);
    }

    /** A head written into freed pages, and the link to it, leave all other heads alone. */
    static lemma AroundNew(next: map<nat, Option<nat>>, pages: map<nat, nat>, next2: map<nat, Option<nat>>, pages2: map<nat, nat>,
                           l: Runs, i: nat, j: nat, a: nat, n: nat)
      requires Canonical(l) && Chained(next, pages, l) && i <= j <= |l| && Absent(l, a, n) && n > 0
      requires forall s :: s in next && s != a && (i > 0 ==> s != l[i - 1].start) ==> s in next2 && next2[s] == next[s]
      requires forall s :: s in pages && s != a ==> s in pages2 && pages2[s] == pages[s]
      ensures forall k :: 0 <= k < |l| && (k + 1 < i || j <= k) ==> SameHead(next, pages, next2, pages2, l[k].start)
      ensures i > 0 ==> var s := l[i - 1].start; s != a && s in pages && s in pages2 && pages2[s] == pages[s]
    {
      hide Canonical, Chained;
      forall k | 0 <= k < |l| ensures l[k].start != a && l[k].start in next && l[k].start in pages {
        HeadAt(next, pages, l, k);
        StartNotAbsent(l, k, a, n);
      }
      forall k | 0 <= k < |l| && (k + 1 < i || j <= k) ensures SameHead(next, pages, next2, pages2, l[k].start) {
        if i > 0 {
          StartApart(l, i - 1, k, l[i - 1].start);
        }
      }
    }

    static lemma StartNotAbsent(l: Runs, k: nat, a: nat, n: nat)
      requires Canonical(l) && k < |l| && Absent(l, a, n) && n > 0
      ensures l[k].start != a
    {
      assert Gap(l, k);
      assert InRun(l[k], l[k].start);
      assert Free(l, l[k].start);
    }

    /** The case that applies at run i, when none has before. */
    static lemma ReturnedStep(l: Runs, i: nat, a: nat, n: nat)
      requires i <= |l| && Returned(l, a, n) == l[..i] + Returned(l[i..], a, n)
      ensures i == |l| ==> Returned(l, a, n) == Spliced(l, i, i, [Run(a, n)])
      ensures i < |l| ==>
                var b := l[i];
                if b.start + b.len == a then
                  Returned(l, a, n) == if i + 1 < |l| && b.start + b.len + n == l[i + 1].start
                                       then Spliced(l, i, i + 2, [Run(b.start, b.len + n + l[i + 1].len)])
                                       else Spliced(l, i, i + 1, [Run(b.start, b.len + n)])
                else if b.start == a + n then Returned(l, a, n) == Spliced(l, i, i + 1, [Run(a, n + b.len)])
                else if b.start > a + n then Returned(l, a, n) == Spliced(l, i, i, [Run(a, n)])
                else Returned(l, a, n) == l[..i + 1] + Returned(l[i + 1..], a, n)
    {
      if i < |l| {
        ReturnedUnfold(l[i..], a, n);
        hide Returned;
        var b := l[i];
        assert l[i..][1..] == l[i + 1..];
        if b.start + b.len == a {
          if i + 1 < |l| {
            assert l[i..][2..] == l[i + 2..];
          }
        } else if b.start == a + n {
        } else if b.start > a + n {
        } else {
          assert l[..i] + ([b] + Returned(l[i + 1..], a, n)) == l[..i + 1] + Returned(l[i + 1..], a, n);
        }
      }
    }

    static lemma ReturnedUnfold(t: Runs, a: nat, n: nat)
      requires t != []
      ensures var b := t[0];
              Returned(t, a, n) ==
              if b.start + b.len == a then
                if |t| > 1 && b.start + b.len + n == t[1].start then [Run(b.start, b.len + n + t[1].len)] + t[2..]
                else [Run(b.start, b.len + n)] + t[1..]
              else if b.start == a + n then [Run(a, n + b.len)] + t[1..]
              else if b.start > a + n then [Run(a, n)] + t
              else [b] + Returned(t[1..], a, n)
    {
    }
  }
}
