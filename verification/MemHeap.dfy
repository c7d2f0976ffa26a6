/** src/memheap.c: the block list and the free list share their headers, and every operation
    rewrites the links of both in place.  The four link members and the USED bit of all headers in
    the pool are maps from header addresses, so a stale header keeps its old contents. */
module MemHeap {
  import opened Basics
  import opened IntrusiveList
  import opened HeapLayout

  /** RT_NULL */
  const NULL: int := 0
  /** The address of memheap->free_header, which lies outside the pool. */
  const FREE_LIST: int := -1

  /** All headers in address order: those of the blocks and the tailer at hi. */
  function Nodes(l: Layout, hi: int): (s: seq<int>)
    ensures |s| == |l| + 1 && s[|l|] == hi
    ensures forall i :: 0 <= i < |l| ==> s[i] == l[i].addr
  {
    seq(|l|, i requires 0 <= i < |l| => l[i].addr) + [hi]
  }

  /** The headers of the free blocks. */
  ghost function FreeAddrs(l: Layout): set<int> {
    set i | 0 <= i < |l| && !l[i].used :: l[i].addr
  }

  /** The position on the free list of the first block with at least n bytes, or |f|. */
  function FirstFit(l: Layout, f: seq<int>, n: nat): (k: nat)
    ensures k <= |f|
    ensures k < |f| ==> Find(l, f[k]) < |l| && l[Find(l, f[k])].size >= n
    ensures forall j :: 0 <= j < k ==> !Fits(l, f[j], n)
  {
    if f == [] then 0 else if Fits(l, f[0], n) then 0 else FirstFit(l, f[1..], n) + 1
  }

  predicate Fits(l: Layout, a: int, n: nat) {
    Find(l, a) < |l| && l[Find(l, a)].size >= n
  }

  lemma {:induction false} FirstFitIs(l: Layout, f: seq<int>, n: nat, k: nat)
    requires k <= |f| && (forall j :: 0 <= j < k ==> !Fits(l, f[j], n)) && (k < |f| ==> Fits(l, f[k], n))
    ensures FirstFit(l, f, n) == k
  {
    if k > 0 {
      assert !Fits(l, f[0], n);
      forall j | 0 <= j < k - 1 ensures !Fits(l, f[1..][j], n) {
        assert !Fits(l, f[j + 1], n);
      }
      FirstFitIs(l, f[1..], n, k - 1);
    }
  }

  // ---------------------------------------------------------------- the block list

  lemma FreshAddr(l: Layout, lo: int, hi: int, i: nat, x: int)
    requires Tiled(l, lo, hi) && i < |l| && l[i].addr < x < l[i].addr + HEADER + l[i].size
    ensures x !in Nodes(l, hi)
  {
    forall k | 0 <= k <= |l| ensures Nodes(l, hi)[k] != x {
      if k > i {
        Apart(l, lo, hi, i, k);
      } else if k < i {
        Apart(l, lo, hi, k, i);
      }
    }
  }

  lemma ChainCut(next: map<int, int>, prev: map<int, int>, l: Layout, lo: int, hi: int, i: nat, n: nat, u: bool)
    requires Tiled(l, lo, hi) && Ring(next, prev, Nodes(l, hi))
    requires i < |l| && l[i].size >= n + HEADER
    ensures l[i].addr in next
    ensures var a, x := l[i].addr, l[i].addr + HEADER + n;
            Ring(LinkedNext(next, a, x), LinkedPrev(next, prev, a, x), Nodes(Cut(l, i, n, u), hi))
  {
    hide Ring;
    var a, x := l[i].addr, l[i].addr + HEADER + n;
    FreshAddr(l, lo, hi, i, x);
    RingNeighbours(next, prev, Nodes(l, hi), i);
    LinkAfter(next, prev, Nodes(l, hi), i, x);
    CutAt(l, i, n, u);
    InsertAtAt(Nodes(l, hi), i + 1, x);
    SameNodes(Nodes(Cut(l, i, n, u), hi), InsertAt(Nodes(l, hi), i + 1, x));
  }

  lemma SameNodes(s: seq<int>, t: seq<int>)
    requires |s| == |t| && forall k :: 0 <= k < |s| ==> s[k] == t[k]
    ensures s == t
  {
  }

  lemma ChainJoin(next: map<int, int>, prev: map<int, int>, l: Layout, hi: int, i: nat)
    requires Ring(next, prev, Nodes(l, hi)) && i + 1 < |l|
    ensures var a, x := l[i].addr, l[i + 1].addr;
            && x in next && x in prev && prev[x] == a
            && Ring(next[a := next[x]], prev[next[x] := a], Nodes(Join(l, i), hi))
  {
    hide Ring;
    RingNeighbours(next, prev, Nodes(l, hi), i + 1);
    UnlinkAt(next, prev, Nodes(l, hi), i + 1);
    JoinAt(l, i);
    RemoveAtAt(Nodes(l, hi), i + 1);
    SameNodes(Nodes(Join(l, i), hi), RemoveAt(Nodes(l, hi), i + 1));
  }

  lemma ChainMark(l: Layout, hi: int, i: nat, u: bool)
    requires i < |l|
    ensures Nodes(Mark(l, i, u), hi) == Nodes(l, hi)
  {
    SameNodes(Nodes(Mark(l, i, u), hi), Nodes(l, hi));
  }

  /** What the links of block i's header say. */
  lemma ChainAt(next: map<int, int>, prev: map<int, int>, l: Layout, hi: int, i: nat)
    requires Ring(next, prev, Nodes(l, hi)) && i < |l|
    ensures l[i].addr in next && next[l[i].addr] == Edge(l, i + 1, hi)
    ensures l[i].addr in prev && prev[l[i].addr] == if i > 0 then l[i - 1].addr else hi
  {
    RingNeighbours(next, prev, Nodes(l, hi), i);
  }

  // ---------------------------------------------------------------- the set of free headers

  lemma FreeAddrsCut(l: Layout, lo: int, hi: int, i: nat, n: nat, u: bool)
    requires Tiled(l, lo, hi) && i < |l| && l[i].size >= n + HEADER
    ensures FreeAddrs(Cut(l, i, n, u)) ==
            FreeAddrs(l) - {l[i].addr} + {l[i].addr + HEADER + n} + if u then {} else {l[i].addr}
  {
    hide Cut;
    var c := Cut(l, i, n, u);
    CutAt(l, i, n, u);
    var rest := FreeAddrs(l) - {l[i].addr};
    forall x | x in rest ensures x in FreeAddrs(c) {
      var k :| 0 <= k < |l| && !l[k].used && l[k].addr == x;
      assert c[if k < i then k else k + 1].addr == x;
    }
    assert !c[i + 1].used && c[i].used == u;
    forall x | x in FreeAddrs(c) && x != c[i].addr && x != c[i + 1].addr ensures x in rest {
      var k :| 0 <= k < |c| && !c[k].used && c[k].addr == x;
      assert l[if k < i then k else k - 1].addr == x;
    }
    if u && l[i].addr in FreeAddrs(c) {
      var k :| 0 <= k < |c| && !c[k].used && c[k].addr == l[i].addr;
      CutTiled(l, lo, hi, i, n, u);
      FindAt(c, lo, hi, k);
      FindAt(c, lo, hi, i);
    }
  }

  lemma FreeAddrsJoin(l: Layout, lo: int, hi: int, i: nat)
    requires Tiled(l, lo, hi) && i + 1 < |l| && !l[i + 1].used
    ensures FreeAddrs(Join(l, i)) == FreeAddrs(l) - {l[i + 1].addr}
  {
    hide Join;
    var c := Join(l, i);
    JoinAt(l, i);
    forall x | x in FreeAddrs(l) && x != l[i + 1].addr ensures x in FreeAddrs(c) {
      var k :| 0 <= k < |l| && !l[k].used && l[k].addr == x;
      assert c[if k <= i then k else k - 1].addr == x;
    }
    forall x | x in FreeAddrs(c) ensures x in FreeAddrs(l) && x != l[i + 1].addr {
      var k :| 0 <= k < |c| && !c[k].used && c[k].addr == x;
      var k' := if k <= i then k else k + 1;
      assert l[k'].addr == x;
      FindAt(l, lo, hi, k');
      FindAt(l, lo, hi, i + 1);
    }
  }

  lemma FreeAddrsMark(l: Layout, lo: int, hi: int, i: nat, u: bool)
    requires Tiled(l, lo, hi) && i < |l|
    ensures FreeAddrs(Mark(l, i, u)) == if u then FreeAddrs(l) - {l[i].addr} else FreeAddrs(l) + {l[i].addr}
  {
    var c := Mark(l, i, u);
    forall x | x in FreeAddrs(l) && x != l[i].addr ensures x in FreeAddrs(c) {
      var k :| 0 <= k < |l| && !l[k].used && l[k].addr == x;
      assert c[k].addr == x;
    }
    assert c[i].used == u && c[i].addr == l[i].addr;
    forall x | x in FreeAddrs(c) && x != l[i].addr ensures x in FreeAddrs(l) {
      var k :| 0 <= k < |c| && !c[k].used && c[k].addr == x;
      assert l[k].addr == x;
    }
    if u && l[i].addr in FreeAddrs(c) {
      var k :| 0 <= k < |c| && !c[k].used && c[k].addr == l[i].addr;
      FindAt(l, lo, hi, k);
      FindAt(l, lo, hi, i);
    }
  }

  // ---------------------------------------------------------------- the USED bits

  ghost predicate FlagsAgree(used: map<int, bool>, l: Layout, hi: int) {
    && (forall i :: 0 <= i < |l| ==> l[i].addr in used && used[l[i].addr] == l[i].used)
    && hi in used && used[hi]
  }

  lemma FlagsCut(used: map<int, bool>, l: Layout, lo: int, hi: int, i: nat, n: nat, u: bool)
    requires FlagsAgree(used, l, hi) && Tiled(l, lo, hi) && i < |l| && l[i].size >= n + HEADER
    ensures FlagsAgree(used[l[i].addr + HEADER + n := false][l[i].addr := u], Cut(l, i, n, u), hi)
  {
    hide Cut;
    CutAt(l, i, n, u);
    var c := Cut(l, i, n, u);
    CutTiled(l, lo, hi, i, n, u);
    forall k | 0 <= k <= |c| && k != i && k != i + 1
      ensures Edge(c, k, hi) != c[i].addr && Edge(c, k, hi) != c[i + 1].addr
    {
      if k > i + 1 {
        Apart(c, lo, hi, i, k);
        Apart(c, lo, hi, i + 1, k);
      } else {
        Apart(c, lo, hi, k, i);
        Apart(c, lo, hi, k, i + 1);
      }
    }
    assert forall k :: 0 <= k <= |c| ==> Edge(c, k, hi) == if k < |c| then c[k].addr else hi;
    assert Edge(c, |c|, hi) == hi;
  }

  lemma FlagsJoin(used: map<int, bool>, l: Layout, hi: int, i: nat)
    requires FlagsAgree(used, l, hi) && i + 1 < |l|
    ensures FlagsAgree(used, Join(l, i), hi)
  {
    JoinAt(l, i);
  }

  lemma FlagsMark(used: map<int, bool>, l: Layout, lo: int, hi: int, i: nat, u: bool)
    requires FlagsAgree(used, l, hi) && Tiled(l, lo, hi) && i < |l|
    ensures FlagsAgree(used[l[i].addr := u], Mark(l, i, u), hi)
  {
    forall k | 0 <= k <= |l| && k != i ensures Edge(l, k, hi) != l[i].addr {
      if k > i {
        Apart(l, lo, hi, i, k);
      } else {
        Apart(l, lo, hi, k, i);
      }
    }
    assert forall k :: 0 <= k <= |l| ==> Edge(l, k, hi) == if k < |l| then l[k].addr else hi;
    assert Edge(l, |l|, hi) == hi;
  }

  // ---------------------------------------------------------------- the free list

  ghost function ToSet(s: seq<int>): set<int> {
    set x | x in s
  }

  lemma ToSetRemove(s: seq<int>, k: nat)
    requires Distinct(s) && k < |s|
    ensures ToSet(RemoveAt(s, k)) == ToSet(s) - {s[k]}
  {
    RemoveDistinct(s, k);
  }

  /** The free list with its header, as a ring. */
  function FreeRing(f: seq<int>): seq<int> {
    [FREE_LIST] + f
  }

  lemma FreePush(nf: map<int, int>, pf: map<int, int>, f: seq<int>, x: int)
    requires Ring(nf, pf, FreeRing(f)) && x !in f && x != FREE_LIST
    ensures FREE_LIST in nf
    ensures Ring(LinkedNext(nf, FREE_LIST, x), LinkedPrev(nf, pf, FREE_LIST, x), FreeRing([x] + f))
  {
    LinkAfter(nf, pf, FreeRing(f), 0, x);
    assert InsertAt(FreeRing(f), 1, x) == FreeRing([x] + f);
  }

  lemma FreeDrop(nf: map<int, int>, pf: map<int, int>, f: seq<int>, k: nat)
    requires Ring(nf, pf, FreeRing(f)) && k < |f|
    ensures f[k] in nf && f[k] in pf && Distinct(f)
    ensures Ring(nf[pf[f[k]] := nf[f[k]]], pf[nf[f[k]] := pf[f[k]]], FreeRing(RemoveAt(f, k)))
    ensures f[k] !in FreeRing(RemoveAt(f, k))
  {
    var s := FreeRing(f);
    assert f[k] == s[k + 1];
    RingNeighbours(nf, pf, s, k + 1);
    UnlinkAt(nf, pf, s, k + 1);
    RemoveDistinct(s, k + 1);
    assert RemoveAt(s, k + 1) == FreeRing(RemoveAt(f, k));
    forall i, j | 0 <= i < j < |f| ensures f[i] != f[j] {
      assert s[i + 1] != s[j + 1];
    }
  }

  lemma FreeBlock(l: Layout, lo: int, hi: int, f: seq<int>, k: nat)
    requires Tiled(l, lo, hi) && ToSet(f) == FreeAddrs(l) && k < |f|
    ensures Find(l, f[k]) < |l| && l[Find(l, f[k])].addr == f[k] && !l[Find(l, f[k])].used
    ensures lo <= f[k] < hi
  {
    assert f[k] in ToSet(f);
    var i :| 0 <= i < |l| && !l[i].used && l[i].addr == f[k];
    FindAt(l, lo, hi, i);
    Apart(l, lo, hi, i, |l|);
    if i > 0 {
      Apart(l, lo, hi, 0, i);
    }
  }

  /** The list without its first x. */
  function Drop(s: seq<int>, x: int): seq<int> {
    if s == [] then [] else if s[0] == x then s[1..] else [s[0]] + Drop(s[1..], x)
  }

  lemma {:induction false} DropIsRemove(s: seq<int>, k: nat)
    requires Distinct(s) && k < |s|
    ensures Drop(s, s[k]) == RemoveAt(s, k)
  {
    if k > 0 {
      assert s[0] != s[k];
      DropIsRemove(s[1..], k - 1);
    }
  }

  /** The free list after rt_memheap_free of block i. */
  function FreesAfterRelease(l: Layout, f: seq<int>, i: nat): seq<int>
    requires i < |l|
  {
    var left := i > 0 && !l[i - 1].used;
    var right := i + 1 < |l| && !l[i + 1].used;
    (if left then [] else [l[i].addr]) + if right then Drop(f, l[i + 1].addr) else f
  }

  // ---------------------------------------------------------------- the steps of rt_memheap_free

  /** The block list, USED bits and free headers describe layout l, in which only block i may
      touch a free neighbour; the header x, if it is one, is free but not on the free list yet. */
  ghost predicate Opened(l: Layout, lo: int, hi: int, i: nat, used: map<int, bool>, f: seq<int>, x: int) {
    && 0 < lo
    && Open(l, lo, hi, i) && FlagsAgree(used, l, hi)
    && ToSet(f) == FreeAddrs(l) - {x}
  }

  lemma MarkStep(l: Layout, lo: int, hi: int, i: nat, used: map<int, bool>, f: seq<int>)
    requires Canonical(l, lo, hi) && FlagsAgree(used, l, hi) && ToSet(f) == FreeAddrs(l) && 0 < lo
    requires i < |l| && l[i].used
    ensures Opened(Mark(l, i, false), lo, hi, i, used[l[i].addr := false], f, l[i].addr)
    ensures l[i].addr in FreeAddrs(Mark(l, i, false)) && l[i].addr !in f && l[i].addr > 0
    ensures FreeBytes(Mark(l, i, false)) == FreeBytes(l) + l[i].size
    ensures Nodes(Mark(l, i, false), hi) == Nodes(l, hi)
  {
    MarkOpen(l, lo, hi, i);
    FlagsMark(used, l, lo, hi, i, false);
    FreeAddrsMark(l, lo, hi, i, false);
    ChainMark(l, hi, i, false);
    if i > 0 {
      Apart(l, lo, hi, 0, i);
    }
    forall k | 0 <= k < |l| && !l[k].used ensures l[k].addr != l[i].addr {
      FindAt(l, lo, hi, k);
      FindAt(l, lo, hi, i);
    }
    assert l[i].addr !in ToSet(f);
  }

  /** Merging into the free block on the left: the header that was open disappears. */
  lemma LeftStep(l: Layout, lo: int, hi: int, i: nat, used: map<int, bool>, f: seq<int>)
    requires 0 < i < |l| && Opened(l, lo, hi, i, used, f, l[i].addr) && !l[i - 1].used
    ensures var m := Join(l, i - 1);
            && Opened(m, lo, hi, i - 1, used, f, NULL)
            && (i - 1 > 0 ==> m[i - 2].used) && m[i - 1].addr == l[i - 1].addr
            && |m| == |l| - 1 && (i + 1 < |l| ==> m[i] == l[i + 1])
            && FreeBytes(m) == FreeBytes(l) + HEADER
  {
    hide Join, Open;
    OpenParts(l, lo, hi, i);
    JoinOpen(l, lo, hi, i, i - 1);
    FlagsJoin(used, l, hi, i - 1);
    FreeAddrsJoin(l, lo, hi, i - 1);
    JoinAt(l, i - 1);
    NullNotFree(Join(l, i - 1), lo, hi);
    JoinTiled(l, lo, hi, i - 1);
  }

  lemma OpenParts(l: Layout, lo: int, hi: int, i: nat)
    requires Open(l, lo, hi, i)
    ensures Tiled(l, lo, hi) && i < |l| && !l[i].used
  {
  }

  lemma NullNotFree(l: Layout, lo: int, hi: int)
    requires Tiled(l, lo, hi) && 0 < lo
    ensures NULL !in FreeAddrs(l)
  {
    forall k | 0 <= k < |l| ensures l[k].addr != NULL {
      if k > 0 {
        Apart(l, lo, hi, 0, k);
      }
    }
  }

  /** Merging with the free block on the right. */
  lemma RightStep(l: Layout, lo: int, hi: int, i: nat, used: map<int, bool>, f: seq<int>, x: int)
    requires Opened(l, lo, hi, i, used, f, x) && i + 1 < |l| && !l[i + 1].used
    requires x == NULL || x == l[i].addr
    ensures l[i + 1].addr in f
    ensures var m := Join(l, i);
            && m[i].addr == l[i].addr && m[i].size == l[i].size + HEADER + l[i + 1].size
            && (i + 1 < |m| ==> m[i + 1].used) && (i > 0 ==> m[i - 1] == l[i - 1])
            && Open(m, lo, hi, i) && FlagsAgree(used, m, hi)
            && FreeAddrs(m) - {x} == ToSet(f) - {l[i + 1].addr}
            && FreeBytes(m) == FreeBytes(l) + HEADER
  {
    hide Join, Open;
    OpenParts(l, lo, hi, i);
    JoinOpen(l, lo, hi, i, i);
    FlagsJoin(used, l, hi, i);
    FreeAddrsJoin(l, lo, hi, i);
    JoinAt(l, i);
    Apart(l, lo, hi, i, i + 1);
    Apart(l, lo, hi, 0, i + 1);
    assert l[i + 1].addr in FreeAddrs(l);
    assert l[i + 1].addr in ToSet(f);
  }

  lemma PushedSet(l: Layout, lo: int, hi: int, i: nat, f: seq<int>)
    requires Tiled(l, lo, hi) && 0 < lo
    requires i < |l| && !l[i].used && ToSet(f) == FreeAddrs(l) - {l[i].addr}
    ensures ToSet([l[i].addr] + f) == FreeAddrs(l) && l[i].addr !in f && l[i].addr > 0
  {
    assert l[i].addr in FreeAddrs(l);
    assert l[i].addr !in ToSet(f);
    forall x ensures x in ToSet([l[i].addr] + f) <==> x in FreeAddrs(l) {
      assert x in [l[i].addr] + f <==> x == l[i].addr || x in f;
      assert x in f <==> x in ToSet(f);
    }
    if i > 0 {
      Apart(l, lo, hi, 0, i);
    }
  }

  /** The flags of the neighbours of block i, read through the links. */
  lemma NeighbourFlags(next: map<int, int>, prev: map<int, int>, used: map<int, bool>, l: Layout, lo: int, hi: int, i: nat)
    requires Ring(next, prev, Nodes(l, hi)) && FlagsAgree(used, l, hi) && Tiled(l, lo, hi) && i < |l|
    ensures var a := l[i].addr;
            && a in next && a in prev && a in used && next[a] in used && prev[a] in used
            && next[a] == Edge(l, i + 1, hi) && next[a] - a - HEADER == l[i].size
            && (i > 0 ==> prev[a] == l[i - 1].addr)
            && (!used[next[a]] <==> i + 1 < |l| && !l[i + 1].used)
            && (!used[prev[a]] <==> i > 0 && !l[i - 1].used)
  {
    ChainAt(next, prev, l, hi, i);
    assert Abuts(l, i, hi);
  }

  function Max(a: int, b: int): int {
    if a >= b then a else b
  }

  // ---------------------------------------------------------------- what a caller sees

  ghost predicate HasRoom(l: Layout, n: nat) {
    exists b :: b in l && !b.used && b.size >= n
  }

  /** The block n bytes are cut from the free block f as: the rest stays free if it can hold a block. */
  ghost function PartOf(f: Block, n: nat): Block {
    Block(f.addr, if f.size >= n + HEADER + MINIALLOC then n else f.size, true)
  }

  /** An allocation of n bytes that turns layout l into m and returns p, in terms of the free blocks before it and the
      live blocks after it: it succeeds exactly when fewer than the free bytes are asked for and some free block is
      long enough, and then one live block is new. */
  ghost predicate Serves(l: Layout, m: Layout, n: nat, p: int) {
    if n < FreeBytes(l) && HasRoom(l, n) then
      exists f :: f in l && !f.used && f.size >= n && p == f.addr + HEADER
                  && PartOf(f, n) !in Live(l) && Live(m) == Live(l) + {PartOf(f, n)}
    else p == NULL && m == l
  }

  /** The free block behind b is long enough for b to grow to n bytes. */
  ghost predicate CanGrow(l: Layout, b: Block, n: nat) {
    exists f :: f in l && !f.used && f.addr == b.addr + HEADER + b.size && b.size + f.size > n + MINIALLOC
  }

  /** A realloc of the live block b to n bytes that turns l into m and returns r: a block that is long enough, or can
      grow, stays where it is; otherwise it moves if an allocation succeeds; every other live block stays as it is. */
  ghost predicate Refits(l: Layout, m: Layout, b: Block, n: nat, r: int) {
    if n <= b.size then
      r == b.addr + HEADER
      && Live(m) == Live(l) - {b} + {Block(b.addr, if b.size > n + HEADER + MINIALLOC then n else b.size, true)}
    else if CanGrow(l, b, n) then
      r == b.addr + HEADER && Live(m) == Live(l) - {b} + {Block(b.addr, n, true)}
    else if n < FreeBytes(l) && HasRoom(l, n) then
      exists f :: f in l && !f.used && f.size >= n && r == f.addr + HEADER
                  && Live(m) == Live(l) - {b} + {PartOf(f, n)}
    else r == NULL && m == l
  }

  /** The free list has a block that is long enough exactly when the layout has one. */
  lemma FirstFitExists(l: Layout, lo: int, hi: int, f: seq<int>, n: nat)
    requires Tiled(l, lo, hi) && ToSet(f) == FreeAddrs(l)
    ensures FirstFit(l, f, n) < |f| <==> HasRoom(l, n)
    ensures FirstFit(l, f, n) < |f| ==>
              var i := Find(l, f[FirstFit(l, f, n)]); i < |l| && !l[i].used && l[i].size >= n
  {
    hide Tiled;
    var k := FirstFit(l, f, n);
    if k < |f| {
      FreeBlock(l, lo, hi, f, k);
    }
    if HasRoom(l, n) {
      var i :| 0 <= i < |l| && !l[i].used && l[i].size >= n;
      FindAt(l, lo, hi, i);
      assert l[i].addr in FreeAddrs(l);
      assert l[i].addr in ToSet(f);
      var j :| 0 <= j < |f| && f[j] == l[i].addr;
      assert Fits(l, f[j], n);
    }
  }

  /** Taking the first block of the free list that is long enough serves the request. */
  lemma FirstFitServes(l: Layout, lo: int, hi: int, f: seq<int>, n: nat)
    requires Tiled(l, lo, hi) && ToSet(f) == FreeAddrs(l) && n < FreeBytes(l) && FirstFit(l, f, n) < |f|
    ensures var i := Find(l, f[FirstFit(l, f, n)]);
            && i < |l| && !l[i].used && l[i].size >= n && HasRoom(l, n)
            && Serves(l, Taken(l, i, n), n, l[i].addr + HEADER)
            && Taken(l, i, n)[i] == PartOf(l[i], n)
  {
    hide Tiled, FirstFit, FreeBytes;
    FirstFitExists(l, lo, hi, f, n);
    var i := Find(l, f[FirstFit(l, f, n)]);
    TakenLive(l, lo, hi, i, n);
    assert Taken(l, i, n)[i] == PartOf(l[i], n);
    hide Taken, Live;
    assert l[i] in l;
  }

  /** The block behind block i decides whether it can grow. */
  lemma GrowsExactly(l: Layout, lo: int, hi: int, i: nat, n: nat)
    requires Tiled(l, lo, hi) && i < |l|
    ensures CanGrow(l, l[i], n) <==> i + 1 < |l| && !l[i + 1].used && l[i].size + l[i + 1].size > n + MINIALLOC
  {
    assert Abuts(l, i, hi);
    if CanGrow(l, l[i], n) {
      var k :| 0 <= k < |l| && !l[k].used && l[k].addr == l[i].addr + HEADER + l[i].size && l[i].size + l[k].size > n + MINIALLOC;
      if i + 1 < |l| {
        FindAt(l, lo, hi, k);
        FindAt(l, lo, hi, i + 1);
      } else {
        Apart(l, lo, hi, k, |l|);
      }
    }
    if i + 1 < |l| {
      assert l[i + 1] in l;
    }
  }

  /** struct rt_memheap together with the headers in its pool. */
  class Heap {
    const start: int
    const poolSize: nat
    var next: map<int, int>
    var prev: map<int, int>
    var nextFree: map<int, int>
    var prevFree: map<int, int>
    var used: map<int, bool>
    var available: int
    var maxUsed: int

    /** The blocks in address order, without the tailer. */
    ghost var layout: Layout
    /** The headers on the free list, in list order. */
    ghost var frees: seq<int>

    /** The address of the zero-length used block that ends the pool. */
    ghost function Tail(): int {
      start + poolSize - HEADER
    }

    ghost predicate Chained()
      reads this
    {
      Ring(next, prev, Nodes(layout, Tail()))
    }

    ghost predicate FreeChained()
      reads this
    {
      Ring(nextFree, prevFree, FreeRing(frees)) && ToSet(frees) == FreeAddrs(layout)
    }

    ghost predicate Valid()
      reads this
    {
      && 0 < start
      && Canonical(layout, start, Tail())
      && Chained()
      && FreeChained()
      && FlagsAgree(used, layout, Tail())
      && available == FreeBytes(layout)
      && poolSize - available <= maxUsed
    }

    /** p is a pointer some earlier call handed out and that was not freed since. */
    ghost predicate IsLive(p: int)
      reads this
    {
      var i := Find(layout, p - HEADER);
      i < |layout| && layout[i].used
    }

    /** rt_memheap_init; the size is at least that of the two headers. */
    constructor (startAddr: int, size: nat)
      requires 0 < startAddr && startAddr % ALIGN == 0 && size >= 2 * HEADER
      ensures Valid()
      ensures start == startAddr && poolSize == size / ALIGN * ALIGN
      ensures layout == [Block(startAddr, poolSize - 2 * HEADER, false)] && frees == [startAddr]
      ensures maxUsed == 2 * HEADER
    {
      var pool: nat := size / ALIGN * ALIGN;
      start := startAddr;
      poolSize := pool;
      available := pool - 2 * HEADER;
      maxUsed := pool - (pool - 2 * HEADER);
      var item, tail := startAddr, startAddr + (pool - 2 * HEADER) + HEADER;
      layout := [Block(startAddr, pool - 2 * HEADER, false)];
      frees := [startAddr];
      next := map[item := tail, tail := item];
      prev := map[item := tail, tail := item];
      nextFree := map[FREE_LIST := item, item := FREE_LIST];
      prevFree := map[FREE_LIST := item, item := FREE_LIST];
      used := map[item := false, tail := true];
      new;
      hide Ring, Canonical, FreeAddrs, FreeBytes, Nodes, ToSet, FlagsAgree;
      PairRing(next, prev, item, tail);
      PairRing(nextFree, prevFree, FREE_LIST, item);
      WholeLayout(layout[0], tail);
      assert FreeRing(frees) == [FREE_LIST, item];
    }

    static lemma PairRing(n: map<int, int>, p: map<int, int>, a: int, b: int)
      requires a != b && n == map[a := b, b := a] && p == n
      ensures Ring(n, p, [a, b])
    {
      forall i | 0 <= i < 2 ensures Linked(n, p, [a, b], i) {
      }
    }

    /** A pool that is one free block. */
    static lemma WholeLayout(b: Block, hi: int)
      requires !b.used && b.addr % ALIGN == 0 && b.size % ALIGN == 0 && b.addr + HEADER + b.size == hi
      ensures Canonical([b], b.addr, hi) && Nodes([b], hi) == [b.addr, hi]
      ensures FreeAddrs([b]) == {b.addr} == ToSet([b.addr]) && FreeBytes([b]) == b.size
      ensures FlagsAgree(map[b.addr := false, hi := true], [b], hi)
    {
      assert Abuts([b], 0, hi) && Mixed([b], 0);
      FreeBytesPair(b, b);
      assert [b][0].addr == b.addr;
    }

    /** The statements that put an item at the front of the free list. */
    method PushFree(x: int)
      requires Ring(nextFree, prevFree, FreeRing(frees)) && x !in frees && x != FREE_LIST
      modifies this`nextFree, this`prevFree, this`frees
      ensures Ring(nextFree, prevFree, FreeRing(frees)) && frees == [x] + old(frees)
    {
      hide Ring;
      FreePush(nextFree, prevFree, frees, x);
      ghost var nf, pf := nextFree, prevFree;
      nextFree := nextFree[x := nextFree[FREE_LIST]];
      prevFree := prevFree[x := FREE_LIST];
      prevFree := prevFree[nextFree[FREE_LIST] := x];
      nextFree := nextFree[FREE_LIST := x];
      assert nextFree == LinkedNext(nf, FREE_LIST, x);
      assert prevFree == pf[x := FREE_LIST][nf[FREE_LIST] := x];
      assert nf[FREE_LIST] != x by { FreshNext(nf, pf, frees, x); }
      assert prevFree == LinkedPrev(nf, pf, FREE_LIST, x);
      frees := [x] + frees;
    }

    static lemma FreshNext(nf: map<int, int>, pf: map<int, int>, f: seq<int>, x: int)
      requires Ring(nf, pf, FreeRing(f)) && x !in f && x != FREE_LIST
      ensures FREE_LIST in nf && nf[FREE_LIST] != x
    {
      RingNeighbours(nf, pf, FreeRing(f), 0);
    }

    /** The statements that take an item off the free list. */
    method DropFree(x: int, ghost k: nat)
      requires Ring(nextFree, prevFree, FreeRing(frees)) && k < |frees| && frees[k] == x
      modifies this`nextFree, this`prevFree, this`frees
      ensures Ring(nextFree, prevFree, FreeRing(frees)) && frees == RemoveAt(old(frees), k)
      ensures ToSet(frees) == ToSet(old(frees)) - {x}
    {
      hide Ring;
      FreeDrop(nextFree, prevFree, frees, k);
      ToSetRemove(frees, k);
      ghost var nf, pf := nextFree, prevFree;
      prevFree := prevFree[nextFree[x] := prevFree[x]];
      assert prevFree[x] == pf[x] by { FreshSelf(nf, pf, frees, k); }
      nextFree := nextFree[prevFree[x] := nextFree[x]];
      frees := RemoveAt(frees, k);
    }

    static lemma FreshSelf(nf: map<int, int>, pf: map<int, int>, f: seq<int>, k: nat)
      requires Ring(nf, pf, FreeRing(f)) && k < |f|
      ensures f[k] in nf && nf[f[k]] != f[k]
    {
      var s := FreeRing(f);
      assert s[k + 1] == f[k];
      RingNeighbours(nf, pf, s, k + 1);
    }

    /** header->next_free = header->prev_free = RT_NULL, on an item off the free list */
    method ClearFree(x: int)
      requires Ring(nextFree, prevFree, FreeRing(frees)) && x !in FreeRing(frees)
      modifies this`nextFree, this`prevFree
      ensures Ring(nextFree, prevFree, FreeRing(frees))
    {
      RingInMemory(nextFree, prevFree, FreeRing(frees));
      ghost var nf, pf := nextFree, prevFree;
      nextFree := nextFree[x := NULL];
      prevFree := prevFree[x := NULL];
      RingFrame(nf, pf, nextFree, prevFree, FreeRing(frees));
    }

    /** The search loop of rt_memheap_alloc: the first item on the free list with enough bytes. */
    method Search(size: nat) returns (header: int, freeSize: int, ghost k: nat)
      requires Valid() && size > 0
      ensures k == FirstFit(layout, frees, size)
      ensures freeSize >= size <==> FirstFit(layout, frees, size) < |frees|
      ensures freeSize >= size ==> header == frees[FirstFit(layout, frees, size)] && freeSize == layout[Find(layout, header)].size
    {
      freeSize := 0;
      k := 0;
      RingNeighbours(nextFree, prevFree, FreeRing(frees), 0);
      header := nextFree[FREE_LIST];
      while header != FREE_LIST && freeSize < size
        invariant k <= |frees| && header == if k < |frees| then frees[k] else FREE_LIST
        invariant forall j :: 0 <= j < k ==> !Fits(layout, frees[j], size)
        invariant freeSize >= size ==> k < |frees| && Fits(layout, header, size)
                                       && freeSize == layout[Find(layout, header)].size
        decreases |frees| - k, size - freeSize
      {
        FreeBlock(layout, start, Tail(), frees, k);
        ChainAt(next, prev, layout, Tail(), Find(layout, header));
        assert Abuts(layout, Find(layout, header), Tail());
        freeSize := next[header] - header - HEADER;
        if freeSize < size {
          RingNeighbours(nextFree, prevFree, FreeRing(frees), k + 1);
          header := nextFree[header];
          k := k + 1;
        }
      }
      if k < |frees| {
        FreeBlock(layout, start, Tail(), frees, k);
      }
      FirstFitIs(layout, frees, size, k);
    }

    /** What rt_memheap_alloc(size) does: whether it succeeds, which block it takes, and what the
        heap looks like afterwards. */
    twostate predicate Allocated(request: nat, p: int)
      reads this
    {
      var n, l, f := Fit(request), old(layout), old(frees);
      var k := FirstFit(l, f, n);
      if p == NULL then
        && (n >= old(available) || k == |f|)
        && layout == l && frees == f && maxUsed == old(maxUsed)
      else
        && n < old(available) && k < |f| && p == f[k] + HEADER
        && var i := Find(l, f[k]);
        && i < |l| && !l[i].used && l[i].size >= n && l[i].addr == f[k]
        && layout == Taken(l, i, n)
        && frees == (if l[i].size >= n + HEADER + MINIALLOC then [p + n] else []) + RemoveAt(f, k)
        && maxUsed == Max(old(maxUsed), poolSize - available)
    }

    /** The statements that put a new free block into the block list behind header. */
    method SplitBlock(header: int, newPtr: int, ghost l: Layout, ghost i: nat, ghost u: bool)
      requires Tiled(l, start, Tail()) && Ring(next, prev, Nodes(l, Tail()))
      requires i < |l| && l[i].addr == header
      requires header + HEADER <= newPtr && l[i].size >= newPtr - header
      modifies this`next, this`prev, this`used
      ensures Ring(next, prev, Nodes(Cut(l, i, newPtr - header - HEADER, u), Tail()))
      ensures used == old(used)[newPtr := false]
    {
      hide Ring, Cut, Nodes, Tiled;
      ghost var n: nat := newPtr - header - HEADER;
      ChainAt(next, prev, l, Tail(), i);
      ChainCut(next, prev, l, start, Tail(), i, n, u);
      EdgeAbove(l, start, Tail(), i, n);
      ghost var next0, prev0 := next, prev;
      used := used[newPtr := false];
      prev := prev[newPtr := header];
      next := next[newPtr := next[header]];
      prev := prev[next[header] := newPtr];
      next := next[header := newPtr];
      assert next == LinkedNext(next0, header, newPtr);
      assert prev == LinkedPrev(next0, prev0, header, newPtr);
    }

    static lemma EdgeAbove(l: Layout, lo: int, hi: int, i: nat, n: nat)
      requires Tiled(l, lo, hi) && i < |l| && l[i].size >= n + HEADER
      ensures Edge(l, i + 1, hi) != l[i].addr + HEADER + n && Edge(l, i + 1, hi) != l[i].addr
    {
      assert Abuts(l, i, hi);
    }

    /** The branch of rt_memheap_alloc that cuts the block found and frees the rest. */
    method TakePart(header: int, size: nat, ghost i: nat, ghost k: nat)
      requires Valid() && size % ALIGN == 0
      requires k < |frees| && header == frees[k] && i < |layout| && layout[i].addr == header && !layout[i].used
      requires layout[i].size >= size + HEADER + MINIALLOC
      modifies this
      ensures Valid() && layout == Cut(old(layout), i, size, true)
      ensures frees == [header + HEADER + size] + RemoveAt(old(frees), k)
      ensures maxUsed == Max(old(maxUsed), poolSize - available)
    {
      hide Ring, FreeBytes, Tiled, Coalesced, Aligned, Cut, FlagsAgree, Nodes, FreeAddrs, ToSet;
      ghost var l, hi := layout, Tail();
      FreeDrop(nextFree, prevFree, frees, k);
      TakeStep(l, start, hi, i, size, used, frees);
      var newPtr := header + size + HEADER;
      SplitBlock(header, newPtr, l, i, true);
      DropFree(header, k);
      ClearFree(header);
      PushFree(newPtr);
      available := available - size - HEADER;
      if poolSize - available > maxUsed {
        maxUsed := poolSize - available;
      }
      used := used[header := true];
      layout := Cut(l, i, size, true);
    }

    /** The lists and flags around a free block of which a part is taken. */
    static lemma TakeStep(l: Layout, lo: int, hi: int, i: nat, n: nat, used: map<int, bool>, f: seq<int>)
      requires Canonical(l, lo, hi) && 0 < lo && FlagsAgree(used, l, hi) && ToSet(f) == FreeAddrs(l)
      requires i < |l| && !l[i].used && l[i].size >= n + HEADER + MINIALLOC && n % ALIGN == 0
      ensures var c, x := Cut(l, i, n, true), l[i].addr + HEADER + n;
              && Canonical(c, lo, hi) && FreeBytes(c) == FreeBytes(l) - n - HEADER
              && FlagsAgree(used[x := false][l[i].addr := true], c, hi)
              && x > 0 && l[i].addr > 0
              && forall g :: ToSet(g) == ToSet(f) - {l[i].addr} ==> x !in g && ToSet([x] + g) == FreeAddrs(c)
    {
      hide Cut, FreeAddrs, FreeBytes;
      var c, x := Cut(l, i, n, true), l[i].addr + HEADER + n;
      TakenCanonical(l, lo, hi, i, n);
      TakenBytes(l, i, n);
      FlagsCut(used, l, lo, hi, i, n, true);
      FreeAddrsCut(l, lo, hi, i, n, true);
      NewHeader(l, lo, hi, i, n);
      forall g | ToSet(g) == ToSet(f) - {l[i].addr}
        ensures x !in g && ToSet([x] + g) == FreeAddrs(c)
      {
        assert x !in ToSet(g);
        forall y ensures y in ToSet([x] + g) <==> y == x || y in ToSet(g) {
          assert y in [x] + g <==> y == x || y in g;
        }
      }
    }

    /** The branch of rt_memheap_alloc that hands out the whole block found. */
    method TakeWhole(header: int, freeSize: int, ghost i: nat, ghost k: nat)
      requires Valid()
      requires k < |frees| && header == frees[k] && i < |layout| && layout[i].addr == header && !layout[i].used
      requires freeSize == layout[i].size
      modifies this
      ensures Valid() && layout == Mark(old(layout), i, true)
      ensures frees == RemoveAt(old(frees), k)
      ensures maxUsed == Max(old(maxUsed), poolSize - available)
    {
      hide Ring, FreeBytes, Tiled, Coalesced, Aligned, Cut, FlagsAgree, Nodes, FreeAddrs;
      ghost var l, hi := layout, Tail();
      FreeDrop(nextFree, prevFree, frees, k);
      MarkCanonical(l, start, hi, i);
      MarkBytes(l, i, true);
      ChainMark(l, hi, i, true);
      FlagsMark(used, l, start, hi, i, true);
      FreeAddrsMark(l, start, hi, i, true);
      available := available - freeSize;
      if poolSize - available > maxUsed {
        maxUsed := poolSize - available;
      }
      DropFree(header, k);
      ClearFree(header);
      used := used[header := true];
      layout := Mark(l, i, true);
    }

    /** rt_memheap_alloc */
    method Alloc(request: nat) returns (p: int)
      requires Valid()
      modifies this
      ensures Valid() && Allocated(request, p)
      ensures forall n: nat :: Rounded(request, n) ==> Serves(old(layout), layout, n, p)
    {
      hide Rounded, Serves;
      hide Ring, FreeBytes, Tiled, Coalesced, Aligned, Cut, Mark, FlagsAgree, Nodes, FreeAddrs;
      var size := Fit(request);
      p := NULL;
      if size < available {
        var header, freeSize; ghost var k;
        header, freeSize, k := Search(size);
        if freeSize >= size {
          ghost var i := Find(layout, header);
          FreeBlock(layout, start, Tail(), frees, k);
          if freeSize >= size + HEADER + MINIALLOC {
            TakePart(header, size, i, k);
          } else {
            TakeWhole(header, freeSize, i, k);
          }
          p := header + HEADER;
        }
      }
      AllocatedServes(old(layout), start, Tail(), old(frees), request, layout, p);
    }

    static lemma AllocatedServes(l: Layout, lo: int, hi: int, f: seq<int>, request: nat, m: Layout, p: int)
      requires Canonical(l, lo, hi) && ToSet(f) == FreeAddrs(l)
      requires var n, k := Fit(request), FirstFit(l, f, Fit(request));
               if p == NULL then (n >= FreeBytes(l) || k == |f|) && m == l
               else n < FreeBytes(l) && k < |f| && p == f[k] + HEADER
                    && var i := Find(l, f[k]); i < |l| && l[i].size >= n && m == Taken(l, i, n)
      ensures forall n: nat :: Rounded(request, n) ==> Serves(l, m, n, p)
    {
      AllocServes(l, lo, hi, f, Fit(request));
      hide Canonical, FirstFit, FreeBytes, Taken, Serves, FreeAddrs, ToSet;
      forall n: nat | Rounded(request, n) ensures Serves(l, m, n, p) {
        FitExact(request, n);
      }
    }

    /** How the request ends, whatever the search finds. */
    static lemma AllocServes(l: Layout, lo: int, hi: int, f: seq<int>, n: nat)
      requires Canonical(l, lo, hi) && ToSet(f) == FreeAddrs(l)
      ensures var k := FirstFit(l, f, n);
              if n >= FreeBytes(l) || k == |f| then Serves(l, l, n, NULL)
              else var i := Find(l, f[k]);
                   i < |l| && !l[i].used && l[i].size >= n && Serves(l, Taken(l, i, n), n, l[i].addr + HEADER)
    {
      hide FirstFit, FreeBytes, Tiled, Taken, Live, Coalesced, Aligned;
      FirstFitExists(l, lo, hi, f, n);
      if n < FreeBytes(l) && FirstFit(l, f, n) < |f| {
        FirstFitServes(l, lo, hi, f, n);
      }
    }

    /** The header of the rest of a cut block is none of the headers in use. */
    static lemma NewHeader(l: Layout, lo: int, hi: int, i: nat, n: nat)
      requires Tiled(l, lo, hi) && lo > 0 && i < |l| && l[i].size >= n + HEADER
      ensures l[i].addr + HEADER + n !in FreeAddrs(l)
      ensures l[i].addr + HEADER + n > 0 && l[i].addr > 0
      ensures Edge(l, i + 1, hi) != l[i].addr + HEADER + n
    {
      var x := l[i].addr + HEADER + n;
      assert Abuts(l, i, hi);
      FreshAddr(l, lo, hi, i, x);
      if i > 0 {
        Apart(l, lo, hi, 0, i);
      }
      forall k | 0 <= k < |l| ensures l[k].addr != x {
        assert Nodes(l, hi)[k] == l[k].addr;
      }
    }

    /** What rt_memheap_free(p) does. */
    twostate predicate Freed(p: int)
      reads this
    {
      if p == NULL then
        layout == old(layout) && frees == old(frees) && maxUsed == old(maxUsed)
      else
        var l := old(layout);
        var i := Find(l, p - HEADER);
        && i < |l| && layout == Released(l, i)
        && frees == FreesAfterRelease(l, old(frees), i)
        && maxUsed == old(maxUsed)
    }

    /** The statements that take the right neighbour x of a free block out of both lists. */
    method MergeNext(header: int, ghost l: Layout, ghost i: nat)
      requires Ring(next, prev, Nodes(l, Tail())) && i + 1 < |l| && l[i].addr == header
      requires Ring(nextFree, prevFree, FreeRing(frees)) && l[i + 1].addr in frees
      modifies this`next, this`prev, this`nextFree, this`prevFree, this`frees
      ensures Ring(next, prev, Nodes(Join(l, i), Tail()))
      ensures Ring(nextFree, prevFree, FreeRing(frees))
      ensures frees == Drop(old(frees), l[i + 1].addr)
      ensures ToSet(frees) == ToSet(old(frees)) - {l[i + 1].addr}
    {
      hide Ring, Nodes, Join, ToSet, Drop;
      ChainAt(next, prev, l, Tail(), i);
      ChainAt(next, prev, l, Tail(), i + 1);
      ChainJoin(next, prev, l, Tail(), i);
      var newPtr := next[header];
      prev := prev[next[newPtr] := header];
      next := next[header := next[newPtr]];
      ghost var k :| 0 <= k < |frees| && frees[k] == newPtr;
      FreeDrop(nextFree, prevFree, frees, k);
      DropIsRemove(frees, k);
      DropFree(newPtr, k);
    }

    /** The part of rt_memheap_free that merges with the left neighbour; h is the header of the
        block that now holds the freed bytes, and insertHeader says whether it is new on the free list. */
    method MergePrev(header: int, ghost l: Layout, ghost i: nat) returns (h: int, insertHeader: bool)
      requires i < |l| && l[i].addr == header && Ring(next, prev, Nodes(l, Tail()))
      requires Opened(l, start, Tail(), i, used, frees, header) && available == FreeBytes(l)
      modifies this`next, this`prev, this`available
      ensures var m, j := MergedLeft(l, i), if i > 0 && !l[i - 1].used then i - 1 else i;
              && insertHeader == (i == 0 || l[i - 1].used)
              && j < |m| && h == m[j].addr && (j > 0 ==> m[j - 1].used)
              && |m| - j == |l| - i && (i + 1 < |l| ==> m[j + 1] == l[i + 1])
              && Ring(next, prev, Nodes(m, Tail())) && available == FreeBytes(m) >= FreeBytes(l)
              && Opened(m, start, Tail(), j, used, frees, if insertHeader then h else NULL)
    {
      hide Ring, FreeBytes, Join, Nodes, FreeAddrs, ToSet, FlagsAgree, Open, Tiled;
      h, insertHeader := header, true;
      OpenParts(l, start, Tail(), i);
      NeighbourFlags(next, prev, used, l, start, Tail(), i);
      if !used[prev[h]] {
        LeftStep(l, start, Tail(), i, used, frees);
        ChainJoin(next, prev, l, Tail(), i - 1);
        available := available + HEADER;
        next := next[prev[h] := next[h]];
        prev := prev[next[h] := prev[h]];
        h := prev[h];
        insertHeader := false;
      }
      OpenParts(MergedLeft(l, i), start, Tail(), if insertHeader then i else i - 1);
    }

    /** The part of rt_memheap_free that merges with the right neighbour and completes the free list. */
    method MergeAndInsert(header: int, insertHeader: bool, ghost l: Layout, ghost i: nat)
      requires i < |l| && l[i].addr == header && Ring(next, prev, Nodes(l, Tail()))
      requires Opened(l, start, Tail(), i, used, frees, if insertHeader then header else NULL)
      requires available == FreeBytes(l) && (i > 0 ==> l[i - 1].used)
      requires Ring(nextFree, prevFree, FreeRing(frees)) && poolSize - available <= maxUsed
      modifies this`next, this`prev, this`nextFree, this`prevFree, this`frees, this`available, this`layout
      ensures Valid() && layout == MergedRight(l, i)
      ensures frees == (if insertHeader then [header] else [])
                       + if i + 1 < |l| && !l[i + 1].used then Drop(old(frees), l[i + 1].addr) else old(frees)
    {
      hide Ring, FreeBytes, Join, Nodes, FreeAddrs, ToSet, FlagsAgree, Open, Tiled, Drop;
      ghost var x := if insertHeader then header else NULL;
      OpenParts(l, start, Tail(), i);
      NeighbourFlags(next, prev, used, l, start, Tail(), i);
      if !used[next[header]] {
        available := available + HEADER;
        RightStep(l, start, Tail(), i, used, frees, x);
        MergeNext(header, l, i);
      }
      layout := MergedRight(l, i);
      OpenParts(layout, start, Tail(), i);
      NullNotFree(layout, start, Tail());
      if insertHeader {
        PushedSet(layout, start, Tail(), i, frees);
        PushFree(header);
      }
      OpenClosed(layout, start, Tail(), i);
    }

    static lemma ReleasedLive(l: Layout, lo: int, hi: int, i: nat)
      requires Canonical(l, lo, hi) && i < |l| && l[i].used
      ensures Live(Released(l, i)) == Live(l) - {l[i]}
    {
      ReleasedCanonical(l, lo, hi, i);
    }

    /** rt_memheap_free */
    method Free(p: int)
      requires Valid() && (p == NULL || IsLive(p))
      modifies this
      ensures Valid() && Freed(p)
      ensures p != NULL ==> Live(layout) == Live(old(layout)) - {old(layout)[Find(old(layout), p - HEADER)]}
    {
      hide Ring, FreeBytes, Join, Nodes, FreeAddrs, ToSet, Drop, FlagsAgree, Open, Tiled, Live;
      if p == NULL {
        return;
      }
      var header := p - HEADER;
      ghost var i := Find(layout, header);
      ghost var f := Mark(layout, i, false);
      ReleasedLive(layout, start, Tail(), i);
      NeighbourFlags(next, prev, used, layout, start, Tail(), i);
      MarkStep(layout, start, Tail(), i, used, frees);
      used := used[header := false];
      available := available + next[header] - header - HEADER;
      var insertHeader;
      header, insertHeader := MergePrev(header, f, i);
      MergeAndInsert(header, insertHeader, MergedLeft(f, i), if insertHeader then i else i - 1);
    }

    /** What rt_memheap_realloc(p, request) does when it returns r. */
    twostate predicate Reallocated(p: int, request: nat, r: int)
      reads this
    {
      var l, f, n := old(layout), old(frees), Fit(request);
      if request == 0 then
        r == NULL && Freed(p)
      else if p == NULL then
        Allocated(request, r)
      else
        var i := Find(l, p - HEADER);
        && i < |l|
        && var right := i + 1 < |l| && !l[i + 1].used;
        if n > l[i].size && right && l[i].size + l[i + 1].size > n + MINIALLOC then
          && r == p && layout == Grown(l, i, n)
          && frees == [p + n] + Drop(f, l[i + 1].addr)
          && maxUsed == Max(old(maxUsed), poolSize - available)
        else if n > l[i].size then
          var k := FirstFit(l, f, n);
          if n >= old(available) || k == |f| then
            r == NULL && layout == l && frees == f && maxUsed == old(maxUsed)
          else
            var j := Find(l, f[k]);
            && r == f[k] + HEADER && l[j].size >= n
            && var m := Taken(l, j, n);
            && Find(m, p - HEADER) < |m| && layout == Released(m, Find(m, p - HEADER))
        else if n + HEADER + MINIALLOC >= l[i].size then
          r == p && layout == l && frees == f && maxUsed == old(maxUsed)
        else
          && r == p && layout == Shrunk(l, i, n)
          && frees == [p + n] + (if right then Drop(f, l[i + 1].addr) else f)
          && maxUsed == old(maxUsed)
    }

    /** The branch of rt_memheap_realloc that grows a block into the free block behind it. */
    method GrowInto(p: int, newSize: nat, ghost i: nat)
      requires Valid() && newSize % ALIGN == 0
      requires i + 1 < |layout| && layout[i].addr == p - HEADER && layout[i].used && !layout[i + 1].used
      requires layout[i].size < newSize && newSize + MINIALLOC < layout[i].size + layout[i + 1].size
      modifies this
      ensures Valid() && layout == Grown(old(layout), i, newSize)
      ensures frees == [p + newSize] + Drop(old(frees), old(layout)[i + 1].addr)
      ensures maxUsed == Max(old(maxUsed), poolSize - available)
    {
      hide Ring, FreeBytes, Tiled, Coalesced, Aligned, Cut, Join, Grown, FlagsAgree, Nodes, FreeAddrs, ToSet, Drop;
      var header := p - HEADER;
      ghost var l, hi := layout, Tail();
      NeighbourFlags(next, prev, used, l, start, hi, i);
      GrownCanonical(l, start, hi, i, newSize);
      GrownAt(l, i, newSize);
      GrowStep(l, start, hi, i, newSize, used, frees);
      available := available - (newSize - (next[header] - header - HEADER));
      if poolSize - available > maxUsed {
        maxUsed := poolSize - available;
      }
      MergeNext(header, l, i);
      var newPtr := p + newSize;
      SplitBlock(header, newPtr, Join(l, i), i, true);
      PushFree(newPtr);
      layout := Grown(l, i, newSize);
    }

    /** The lists and flags around a block that grows. */
    static lemma GrowStep(l: Layout, lo: int, hi: int, i: nat, n: nat, used: map<int, bool>, f: seq<int>)
      requires Tiled(l, lo, hi) && 0 < lo && FlagsAgree(used, l, hi) && ToSet(f) == FreeAddrs(l)
      requires i + 1 < |l| && l[i].used && !l[i + 1].used
      requires l[i].size < n && n + MINIALLOC < l[i].size + l[i + 1].size
      ensures var j, x := Join(l, i), l[i].addr + HEADER + n;
              && Tiled(j, lo, hi) && |j| == |l| - 1 && j[i].addr == l[i].addr && j[i].size >= n + HEADER
              && l[i + 1].addr in f
              && FlagsAgree(used[x := false], Cut(j, i, n, true), hi)
              && x > 0 && x !in f
              && forall g :: ToSet(g) == ToSet(f) - {l[i + 1].addr}
                             ==> x !in g && ToSet([x] + g) == FreeAddrs(Cut(j, i, n, true))
    {
      hide Join, Cut, FreeAddrs;
      var j, x := Join(l, i), l[i].addr + HEADER + n;
      JoinTiled(l, lo, hi, i);
      JoinAt(l, i);
      FlagsJoin(used, l, hi, i);
      FlagsCut(used, j, lo, hi, i, n, true);
      FreeAddrsJoin(l, lo, hi, i);
      FreeAddrsCut(j, lo, hi, i, n, true);
      NewHeader(j, lo, hi, i, n);
      BlockFree(l, i + 1);
      assert l[i + 1].addr in ToSet(f);
      assert j[i].addr !in FreeAddrs(j) by { UsedNotFree(j, lo, hi, i); }
      assert used[x := false][l[i].addr := true] == used[x := false];
      assert x !in ToSet(f) by { assert x != l[i + 1].addr by { assert Abuts(l, i, hi); } }
      forall g | ToSet(g) == ToSet(f) - {l[i + 1].addr}
        ensures x !in g && ToSet([x] + g) == FreeAddrs(Cut(j, i, n, true))
      {
        assert x !in ToSet(g);
        forall y ensures y in ToSet([x] + g) <==> y == x || y in ToSet(g) {
          assert y in [x] + g <==> y == x || y in g;
        }
      }
    }

    static lemma BlockFree(l: Layout, i: nat)
      requires i < |l| && !l[i].used
      ensures l[i].addr in FreeAddrs(l)
    {
    }

    static lemma UsedNotFree(l: Layout, lo: int, hi: int, i: nat)
      requires Tiled(l, lo, hi) && i < |l| && l[i].used
      ensures l[i].addr !in FreeAddrs(l)
    {
      forall k | 0 <= k < |l| && !l[k].used ensures l[k].addr != l[i].addr {
        FindAt(l, lo, hi, k);
        FindAt(l, lo, hi, i);
      }
    }

    /** The lists and flags around a live block that is cut. */
    static lemma ShrinkStep(l: Layout, lo: int, hi: int, i: nat, n: nat, used: map<int, bool>, f: seq<int>)
      requires Canonical(l, lo, hi) && 0 < lo && FlagsAgree(used, l, hi) && ToSet(f) == FreeAddrs(l)
      requires i < |l| && l[i].used && l[i].size >= n + HEADER && n % ALIGN == 0
      ensures var c, x := Cut(l, i, n, true), l[i].addr + HEADER + n;
              && |c| == |l| + 1 && c[i + 1] == Block(x, l[i].size - n - HEADER, false) && c[i].used
              && (i + 1 < |l| ==> c[i + 2] == l[i + 1])
              && Opened(c, lo, hi, i + 1, used[x := false], f, x) && x !in f
              && FreeBytes(c) == FreeBytes(l) + l[i].size - n - HEADER
    {
      hide Cut, FreeAddrs, ToSet, FreeBytes;
      var c, x := Cut(l, i, n, true), l[i].addr + HEADER + n;
      assert i + 1 < |l| ==> Mixed(l, i + 1);
      CutTiled(l, lo, hi, i, n, true);
      CutAligned(l, i, n, true);
      CutAt(l, i, n, true);
      CutBytes(l, i, n, true);
      forall k | 0 <= k < |c| && k != i + 1 && k != i ensures Mixed(c, k) {
        assert Mixed(l, if k <= i then k else k - 1);
      }
      FlagsCut(used, l, lo, hi, i, n, true);
      assert used[x := false][l[i].addr := true] == used[x := false];
      FreeAddrsCut(l, lo, hi, i, n, true);
      UsedNotFree(l, lo, hi, i);
      NewHeader(l, lo, hi, i, n);
      NotListed(f, x);
    }

    static lemma NotListed(f: seq<int>, x: int)
      requires x !in ToSet(f)
      ensures x !in f
    {
    }

    /** The branch of rt_memheap_realloc that cuts a block. */
    method ShrinkTo(p: int, newSize: nat, ghost i: nat)
      requires Valid() && newSize % ALIGN == 0
      requires i < |layout| && layout[i].addr == p - HEADER && layout[i].used && layout[i].size >= newSize + HEADER
      modifies this
      ensures Valid() && layout == Shrunk(old(layout), i, newSize) && maxUsed == old(maxUsed)
      ensures frees == [p + newSize] + if i + 1 < |old(layout)| && !old(layout)[i + 1].used
                                       then Drop(old(frees), old(layout)[i + 1].addr) else old(frees)
    {
      hide Ring, FreeBytes, Tiled, Coalesced, Aligned, Cut, Join, FlagsAgree, Nodes, FreeAddrs, ToSet, Drop, Open, Live;
      var header, newPtr := p - HEADER, p + newSize;
      ghost var l, hi := layout, Tail();
      ghost var c := Cut(l, i, newSize, true);
      ShrinkStep(l, start, hi, i, newSize, used, frees);
      ShrunkCanonical(l, start, hi, i, newSize);
      SplitBlock(header, newPtr, l, i, true);
      OpenParts(c, start, hi, i + 1);
      NeighbourFlags(next, prev, used, c, start, hi, i + 1);
      if !used[next[newPtr]] {
        NeighbourFlags(next, prev, used, c, start, hi, i + 2);
        available := available - (next[next[newPtr]] - next[newPtr] - HEADER);
        RightStep(c, start, hi, i + 1, used, frees, newPtr);
        MergeNext(newPtr, c, i + 1);
      }
      layout := Shrunk(l, i, newSize);
      OpenParts(layout, start, hi, i + 1);
      PushedSet(layout, start, hi, i + 1, frees);
      PushFree(newPtr);
      NeighbourFlags(next, prev, used, layout, start, hi, i + 1);
      available := available + next[newPtr] - newPtr - HEADER;
    }

    /** rt_memheap_realloc; the payload bytes are not part of this model. */
    method Realloc(p: int, request: nat) returns (r: int)
      requires Valid() && (p == NULL || IsLive(p))
      modifies this
      ensures Valid() && Reallocated(p, request, r)
      ensures request > 0 && p == NULL ==> forall n: nat :: Rounded(request, n) ==> Serves(old(layout), layout, n, r)
      ensures request > 0 && p != NULL ==> forall n: nat :: Rounded(request, n) ==>
                Refits(old(layout), layout, old(layout)[Find(old(layout), p - HEADER)], n, r)
    {
      RoundedOnce(request);
      hide Rounded, Serves, Refits, Ring, FreeBytes, Canonical, FlagsAgree, Nodes, FreeAddrs, ToSet, Drop, Grown, Shrunk, Released;
      if request == 0 {
        Free(p);
        return NULL;
      }
      var newSize := Fit(request);
      if p == NULL {
        r := Alloc(newSize);
        return;
      }
      r := Resize(p, request, newSize);
    }

    /** The rest of rt_memheap_realloc, for a block and a size other than 0 */
    method Resize(p: int, ghost request: nat, newSize: nat) returns (r: int)
      requires Valid() && p != NULL && IsLive(p) && request > 0 && newSize == Fit(request)
      modifies this
      ensures Valid() && Reallocated(p, request, r)
      ensures Refits(old(layout), layout, old(layout)[Find(old(layout), p - HEADER)], newSize, r)
    {
      hide Rounded, Serves, Refits, FirstFit, Taken, Mixed;
      hide Ring, FreeBytes, Tiled, Coalesced, Aligned, Cut, Join, FlagsAgree, Nodes, FreeAddrs, ToSet, Drop, Open, Grown, Shrunk, Released;
      FitTwice(request);
      var header := p - HEADER;
      ghost var l, f, i := layout, frees, Find(layout, header);
      NeighbourFlags(next, prev, used, l, start, Tail(), i);
      var oldSize := next[header] - header - HEADER;
      if newSize > oldSize {
        var nextPtr := next[header];
        if !used[nextPtr] {
          NeighbourFlags(next, prev, used, l, start, Tail(), i + 1);
          var nextSize := next[nextPtr] - nextPtr - HEADER;
          if nextSize + oldSize > newSize + MINIALLOC {
            GrowInto(p, newSize, i);
            ReallocRefits(l, start, Tail(), f, i, newSize, layout, p);
            return p;
          }
        }
        r := Alloc(newSize);
        if r != NULL {
          KeepsLive(l, start, Tail(), i, Find(l, r - HEADER), newSize);
          Free(p);
        }
        ReallocRefits(l, start, Tail(), f, i, newSize, layout, r);
        return;
      }
      if newSize + HEADER + MINIALLOC >= oldSize {
        ReallocRefits(l, start, Tail(), f, i, newSize, layout, p);
        return p;
      }
      ShrinkTo(p, newSize, i);
      ReallocRefits(l, start, Tail(), f, i, newSize, layout, p);
      return p;
    }

    static lemma RoundedOnce(request: nat)
      ensures forall n: nat :: Rounded(request, n) ==> n == Fit(request)
      ensures Rounded(Fit(request), Fit(request)) && Fit(Fit(request)) == Fit(request)
    {
      FitTwice(request);
      FitExact(Fit(request), Fit(request));
      forall n: nat | Rounded(request, n) ensures n == Fit(request) {
        FitExact(request, n);
      }
    }

    /** The block that realloc leaves, in each of its branches */
    static lemma ReallocRefits(l: Layout, lo: int, hi: int, f: seq<int>, i: nat, n: nat, m: Layout, r: int)
      requires Canonical(l, lo, hi) && ToSet(f) == FreeAddrs(l) && i < |l| && l[i].used && n % ALIGN == 0
      requires var right := i + 1 < |l| && !l[i + 1].used;
               var k := FirstFit(l, f, n);
               if n > l[i].size && right && l[i].size + l[i + 1].size > n + MINIALLOC then
                 r == l[i].addr + HEADER && m == Grown(l, i, n)
               else if n > l[i].size then
                 if n >= FreeBytes(l) || k == |f| then r == NULL && m == l
                 else
                   var j := Find(l, f[k]);
                   && r == f[k] + HEADER && l[j].size >= n
                   && var t := Taken(l, j, n); Find(t, l[i].addr) < |t| && m == Released(t, Find(t, l[i].addr))
               else if n + HEADER + MINIALLOC >= l[i].size then r == l[i].addr + HEADER && m == l
               else r == l[i].addr + HEADER && m == Shrunk(l, i, n)
      ensures Refits(l, m, l[i], n, r)
    {
      hide Grown, Shrunk, Taken, Released, FirstFit, FreeBytes, FreeAddrs, ToSet, Tiled, Coalesced, Aligned, CanGrow, HasRoom, Find;
      GrowsExactly(l, lo, hi, i, n);
      FirstFitExists(l, lo, hi, f, n);
      if n <= l[i].size {
        if n + HEADER + MINIALLOC >= l[i].size {
          assert l[i] in Live(l);
          assert Live(l) == Live(l) - {l[i]} + {l[i]};
        } else {
          ShrunkCanonical(l, lo, hi, i, n);
        }
      } else if CanGrow(l, l[i], n) {
        GrownLive(l, lo, hi, i, n);
      } else if n < FreeBytes(l) && FirstFit(l, f, n) < |f| {
        var j := Find(l, f[FirstFit(l, f, n)]);
        MovedLive(l, lo, hi, i, j, n);
        FirstFitServes(l, lo, hi, f, n);
        hide Live, PartOf, Serves;
        assert l[j] in l;
      }
    }

    static lemma FitTwice(size: nat)
      ensures Fit(Fit(size)) == Fit(size)
    {
    }

    /** A live block is still there, and live, after another block was taken. */
    static lemma KeepsLive(l: Layout, lo: int, hi: int, i: nat, j: nat, n: nat)
      requires Canonical(l, lo, hi) && i < |l| && l[i].used && j < |l| && !l[j].used && l[j].size >= n
      requires n % ALIGN == 0
      ensures var m := Taken(l, j, n);
              var i' := Find(m, l[i].addr);
              i' < |m| && m[i'] == l[i]
    {
      var m := Taken(l, j, n);
      TakenCanonical(l, lo, hi, j, n);
      var i' := if i < j || |m| == |l| then i else i + 1;
      if l[j].size >= n + HEADER + MINIALLOC {
        CutAt(l, j, n, true);
      }
      assert m[i'] == l[i];
      FindAt(m, lo, hi, i');
    }
  }

  /** A realloc that moves: the old block goes, one block of at least n bytes comes, every other
      live block keeps its address and size. */
  lemma MovedLive(l: Layout, lo: int, hi: int, i: nat, j: nat, n: nat)
    requires Canonical(l, lo, hi) && i < |l| && l[i].used && j < |l| && !l[j].used && l[j].size >= n
    requires n % ALIGN == 0
    ensures var m := Taken(l, j, n);
            var i' := Find(m, l[i].addr);
            && i' < |m| && m[i'] == l[i] && m[j].size >= n && m[j].addr == l[j].addr
            && Canonical(Released(m, i'), lo, hi)
            && Live(Released(m, i')) == Live(l) - {l[i]} + {m[j]}
  {
    hide Taken, Released, Tiled, Coalesced, Aligned, FreeBytes;
    var m := Taken(l, j, n);
    TakenCanonical(l, lo, hi, j, n);
    TakenLive(l, lo, hi, j, n);
    Heap.KeepsLive(l, lo, hi, i, j, n);
    ReleasedCanonical(m, lo, hi, Find(m, l[i].addr));
    assert l[i] in Live(l);
  }
}
