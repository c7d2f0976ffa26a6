/** The layouts a memory heap of src/memheap.c can be in, as sequences of blocks in address order,
    and the effect of each operation on them.  Nothing here mentions a pointer: this is what the
    pointer surgery of `MemHeap` is proved to implement. */
module HeapLayout {

  /** RT_MEMHEAP_SIZE: six words of struct rt_memheap_item on a 32-bit machine. */
  const HEADER: int := 24
  /** RT_MEMHEAP_MINIALLOC */
  const MINIALLOC: int := 12
  /** RT_ALIGN_SIZE */
  const ALIGN: int := 4

  /** A block: the address of its header, the payload bytes behind it, and the USED bit. */
  datatype Block = Block(addr: int, size: nat, used: bool)

  type Layout = seq<Block>

  /** Where block i starts; past the last block that is the tailer. */
  function Edge(l: Layout, i: nat, hi: int): int
    requires i <= |l|
  {
    if i < |l| then l[i].addr else hi
  }

  /** Block i ends where the next one begins. */
  ghost predicate Abuts(l: Layout, i: nat, hi: int)
    requires i < |l|
  {
    l[i].addr + HEADER + l[i].size == Edge(l, i + 1, hi)
  }

  /** The blocks lie end to end from lo to hi. */
  ghost predicate Tiled(l: Layout, lo: int, hi: int) {
    && Edge(l, 0, hi) == lo
    && forall i :: 0 <= i < |l| ==> Abuts(l, i, hi)
  }

  /** Block i and its right neighbour are not both free. */
  ghost predicate Mixed(l: Layout, i: nat)
    requires i < |l|
  {
    i + 1 < |l| ==> l[i].used || l[i + 1].used
  }

  /** No two neighbours are both free. */
  ghost predicate Coalesced(l: Layout) {
    forall i :: 0 <= i < |l| ==> Mixed(l, i)
  }

  ghost predicate Aligned(l: Layout) {
    forall i :: 0 <= i < |l| ==> l[i].addr % ALIGN == 0 && l[i].size % ALIGN == 0
  }

  /** Every layout of a heap is one of these. */
  ghost predicate Canonical(l: Layout, lo: int, hi: int) {
    Tiled(l, lo, hi) && Coalesced(l) && Aligned(l)
  }

  function FreeOf(b: Block): nat {
    if b.used then 0 else b.size
  }

  function FreeBytes(l: Layout): nat {
    if l == [] then 0 else FreeOf(l[0]) + FreeBytes(l[1..])
  }

  function UsedBytes(l: Layout): nat {
    if l == [] then 0 else (if l[0].used then l[0].size else 0) + UsedBytes(l[1..])
  }

  /** The blocks handed out to callers. */
  ghost function Live(l: Layout): set<Block> {
    set b | b in l && b.used
  }

  // ---------------------------------------------------------------- requests

  /** The size a request is rounded to: RT_ALIGN, then at least RT_MEMHEAP_MINIALLOC. */
  function Fit(size: nat): (n: nat)
    ensures n >= size && n >= MINIALLOC && n % ALIGN == 0
  {
    var a := (size + ALIGN - 1) / ALIGN * ALIGN;
    if a < MINIALLOC then MINIALLOC else a
  }

  /** n is the least aligned size that holds the request and is no shorter than RT_MEMHEAP_MINIALLOC. */
  ghost predicate Rounded(request: nat, n: nat) {
    && n >= request && n >= MINIALLOC && n % ALIGN == 0
    && forall m: nat :: m >= request && m >= MINIALLOC && m % ALIGN == 0 ==> n <= m
  }

  lemma FitExact(request: nat, n: nat)
    ensures Rounded(request, n) <==> n == Fit(request)
    ensures Fit(request) < (if request < MINIALLOC then MINIALLOC else request) + ALIGN
  {
    forall m: nat | m >= request && m >= MINIALLOC && m % ALIGN == 0 ensures Fit(request) <= m {
      FitLeast(request, m);
    }
  }

  lemma FitLeast(request: nat, m: nat)
    requires m >= request && m >= MINIALLOC && m % ALIGN == 0
    ensures Fit(request) <= m
  {
  }

  // ---------------------------------------------------------------- effects

  /** Block i is cut after n bytes; the first part gets flag u and the rest becomes free. */
  function Cut(l: Layout, i: nat, n: nat, u: bool): Layout
    requires i < |l| && l[i].size >= n + HEADER
  {
    l[..i] + [Block(l[i].addr, n, u), Block(l[i].addr + HEADER + n, l[i].size - n - HEADER, false)] + l[i + 1..]
  }

  /** Block i swallows block i + 1, whose header becomes payload. */
  function Join(l: Layout, i: nat): Layout
    requires i + 1 < |l|
  {
    l[..i] + [Block(l[i].addr, l[i].size + HEADER + l[i + 1].size, l[i].used)] + l[i + 2..]
  }

  function Mark(l: Layout, i: nat, u: bool): Layout
    requires i < |l|
  {
    l[i := l[i].(used := u)]
  }

  /** rt_memheap_alloc of n bytes out of free block i. */
  function Taken(l: Layout, i: nat, n: nat): Layout
    requires i < |l| && l[i].size >= n
  {
    if l[i].size >= n + HEADER + MINIALLOC then Cut(l, i, n, true) else Mark(l, i, true)
  }

  /** Free block i merged with a free block before it. */
  function MergedLeft(l: Layout, i: nat): Layout
    requires i < |l|
  {
    if i > 0 && !l[i - 1].used then Join(l, i - 1) else l
  }

  /** Free block i merged with a free block after it. */
  function MergedRight(l: Layout, i: nat): Layout
    requires i < |l|
  {
    if i + 1 < |l| && !l[i + 1].used then Join(l, i) else l
  }

  /** rt_memheap_free of block i: merged with a free block before it and a free block after it. */
  function Released(l: Layout, i: nat): Layout
    requires i < |l|
  {
    var f := Mark(l, i, false);
    MergedRight(MergedLeft(f, i), if i > 0 && !f[i - 1].used then i - 1 else i)
  }

  /** rt_memheap_realloc growing block i to n bytes into the free block behind it. */
  function Grown(l: Layout, i: nat, n: nat): Layout
    requires i + 1 < |l| && l[i].size <= n && n + MINIALLOC < l[i].size + l[i + 1].size
  {
    l[..i] + [Block(l[i].addr, n, l[i].used),
              Block(l[i].addr + HEADER + n, l[i].size + l[i + 1].size - n, false)] + l[i + 2..]
  }

  /** rt_memheap_realloc cutting block i down to n bytes; the rest joins a free block behind it. */
  function Shrunk(l: Layout, i: nat, n: nat): Layout
    requires i < |l| && l[i].size >= n + HEADER
  {
    var c := Cut(l, i, n, l[i].used);
    if i + 2 < |c| && !c[i + 2].used then Join(c, i + 1) else c
  }

  /** The index of the block whose header is at address a, or |l|. */
  function Find(l: Layout, a: int): (i: nat)
    ensures i <= |l|
    ensures i < |l| ==> l[i].addr == a
    ensures i == |l| ==> forall k :: 0 <= k < |l| ==> l[k].addr != a
  {
    if l == [] then 0 else if l[0].addr == a then 0 else Find(l[1..], a) + 1
  }

  // ---------------------------------------------------------------- geometry

  /** Addresses ascend, and no block reaches the header of a later one. */
  lemma {:induction false} Apart(l: Layout, lo: int, hi: int, i: nat, j: nat)
    requires Tiled(l, lo, hi) && i < j <= |l|
    ensures l[i].addr + HEADER + l[i].size <= Edge(l, j, hi)
    decreases j - i
  {
    assert Abuts(l, i, hi);
    if i + 1 < j {
      Apart(l, lo, hi, i + 1, j);
    }
  }

  /** Payloads of different blocks do not overlap, and all lie inside the pool. */
  lemma PayloadsDisjoint(l: Layout, lo: int, hi: int, i: nat, j: nat, x: int)
    requires Tiled(l, lo, hi) && i < |l| && j < |l|
    requires l[i].addr + HEADER <= x < l[i].addr + HEADER + l[i].size
    ensures lo + HEADER <= x < hi
    ensures l[j].addr <= x < l[j].addr + HEADER + l[j].size ==> i == j
  {
    Apart(l, lo, hi, i, |l|);
    if 0 < i {
      Apart(l, lo, hi, 0, i);
    }
    if i < j {
      Apart(l, lo, hi, i, j);
    } else if j < i {
      Apart(l, lo, hi, j, i);
    }
  }

  lemma FindAt(l: Layout, lo: int, hi: int, i: nat)
    requires Tiled(l, lo, hi) && i < |l|
    ensures Find(l, l[i].addr) == i
  {
    var k := Find(l, l[i].addr);
    if k < i {
      Apart(l, lo, hi, k, i);
    } else if i < k < |l| {
      Apart(l, lo, hi, i, k);
    }
  }

  // ---------------------------------------------------------------- conservation

  lemma {:induction false} FreeBytesConcat(a: Layout, b: Layout)
    ensures FreeBytes(a + b) == FreeBytes(a) + FreeBytes(b)
  {
    if a == [] {
      assert a + b == b;
    } else {
      FreeBytesConcat(a[1..], b);
      assert (a + b)[1..] == a[1..] + b;
    }
  }

  lemma FreeBytesPair(b: Block, c: Block)
    ensures FreeBytes([b]) == FreeOf(b)
    ensures FreeBytes([b, c]) == FreeOf(b) + FreeOf(c)
  {
    FreeBytesConcat([b], [c]);
    assert [b, c] == [b] + [c];
  }

  /** Replacing a stretch of blocks changes the free bytes by those of the stretch. */
  lemma FreeBytesReplace(l: Layout, i: nat, j: nat, m: Layout)
    requires i <= j <= |l|
    ensures FreeBytes(l[..i] + m + l[j..]) == FreeBytes(l) - FreeBytes(l[i..j]) + FreeBytes(m)
  {
    FreeBytesConcat(l[..i] + m, l[j..]);
    FreeBytesConcat(l[..i], m);
    assert l == l[..j] + l[j..] && l[..j] == l[..i] + l[i..j];
    FreeBytesConcat(l[..j], l[j..]);
    FreeBytesConcat(l[..i], l[i..j]);
  }

  /** Every byte of the pool is a header byte, a free byte or a byte of a live payload. */
  lemma {:induction false} Conservation(l: Layout, lo: int, hi: int)
    requires Tiled(l, lo, hi)
    ensures FreeBytes(l) + UsedBytes(l) + HEADER * |l| == hi - lo
  {
    if l != [] {
      var t := l[1..];
      assert forall i :: 0 <= i <= |t| ==> Edge(t, i, hi) == Edge(l, i + 1, hi);
      forall i | 0 <= i < |t| ensures Abuts(t, i, hi) {
        assert Abuts(l, i + 1, hi);
      }
      assert Abuts(l, 0, hi);
      Conservation(t, Edge(l, 1, hi), hi);
    }
  }

  lemma MarkBytes(l: Layout, i: nat, u: bool)
    requires i < |l|
    ensures FreeBytes(Mark(l, i, u)) == FreeBytes(l) - FreeOf(l[i]) + FreeOf(l[i].(used := u))
  {
    hide FreeBytes;
    FreeBytesReplace(l, i, i + 1, [l[i].(used := u)]);
    FreeBytesPair(l[i], l[i]);
    FreeBytesPair(l[i].(used := u), l[i]);
    assert l[i..i + 1] == [l[i]];
    assert Mark(l, i, u) == l[..i] + [l[i].(used := u)] + l[i + 1..];
  }

  lemma CutBytes(l: Layout, i: nat, n: nat, u: bool)
    requires i < |l| && l[i].size >= n + HEADER
    ensures FreeBytes(Cut(l, i, n, u)) == FreeBytes(l) - FreeOf(l[i])
                                          + (if u then 0 else n) + l[i].size - n - HEADER
  {
    hide FreeBytes;
    var b, c := Block(l[i].addr, n, u), Block(l[i].addr + HEADER + n, l[i].size - n - HEADER, false);
    FreeBytesReplace(l, i, i + 1, [b, c]);
    FreeBytesPair(b, c);
    FreeBytesPair(l[i], l[i]);
    assert l[i..i + 1] == [l[i]];
  }

  lemma JoinBytes(l: Layout, i: nat)
    requires i + 1 < |l|
    ensures FreeBytes(Join(l, i)) == FreeBytes(l) - FreeOf(l[i]) - FreeOf(l[i + 1])
                                     + if l[i].used then 0 else l[i].size + HEADER + l[i + 1].size
  {
    hide FreeBytes;
    var b := Block(l[i].addr, l[i].size + HEADER + l[i + 1].size, l[i].used);
    FreeBytesReplace(l, i, i + 2, [b]);
    FreeBytesPair(l[i], l[i + 1]);
    FreeBytesPair(b, b);
    assert l[i..i + 2] == [l[i], l[i + 1]];
  }

  // ---------------------------------------------------------------- invariance

  /** The blocks of Cut(l, i, n, u), one by one. */
  lemma CutAt(l: Layout, i: nat, n: nat, u: bool)
    requires i < |l| && l[i].size >= n + HEADER
    ensures var c := Cut(l, i, n, u);
            && |c| == |l| + 1
            && (forall k :: 0 <= k < i ==> c[k] == l[k])
            && c[i] == Block(l[i].addr, n, u)
            && c[i + 1] == Block(l[i].addr + HEADER + n, l[i].size - n - HEADER, false)
            && (forall k :: i + 1 < k < |c| ==> c[k] == l[k - 1])
            && (forall k :: i < k < |l| ==> l[k] == c[k + 1])
  {
  }

  /** The blocks of Join(l, i), one by one. */
  lemma JoinAt(l: Layout, i: nat)
    requires i + 1 < |l|
    ensures var c := Join(l, i);
            && |c| == |l| - 1
            && (forall k :: 0 <= k < i ==> c[k] == l[k])
            && c[i] == Block(l[i].addr, l[i].size + HEADER + l[i + 1].size, l[i].used)
            && (forall k :: i < k < |c| ==> c[k] == l[k + 1])
            && (forall k :: i + 1 < k < |l| ==> l[k] == c[k - 1])
  {
  }

  lemma CutTiled(l: Layout, lo: int, hi: int, i: nat, n: nat, u: bool)
    requires Tiled(l, lo, hi) && i < |l| && l[i].size >= n + HEADER
    ensures Tiled(Cut(l, i, n, u), lo, hi)
  {
    var c := Cut(l, i, n, u);
    CutAt(l, i, n, u);
    forall k | 0 <= k < |c| ensures Abuts(c, k, hi) {
      assert Abuts(l, if k <= i then k else k - 1, hi);
    }
  }

  lemma JoinTiled(l: Layout, lo: int, hi: int, i: nat)
    requires Tiled(l, lo, hi) && i + 1 < |l|
    ensures Tiled(Join(l, i), lo, hi)
  {
    var c := Join(l, i);
    JoinAt(l, i);
    forall k | 0 <= k < |c| ensures Abuts(c, k, hi) {
      assert Abuts(l, if k < i then k else k + 1, hi);
      assert Abuts(l, i, hi);
    }
  }

  lemma CutAligned(l: Layout, i: nat, n: nat, u: bool)
    requires Aligned(l) && i < |l| && l[i].size >= n + HEADER && n % ALIGN == 0
    ensures Aligned(Cut(l, i, n, u))
  {
    CutAt(l, i, n, u);
  }

  lemma JoinAligned(l: Layout, i: nat)
    requires Aligned(l) && i + 1 < |l|
    ensures Aligned(Join(l, i))
  {
    JoinAt(l, i);
  }

  lemma MarkTiled(l: Layout, lo: int, hi: int, i: nat, u: bool)
    requires Tiled(l, lo, hi) && i < |l|
    ensures Tiled(Mark(l, i, u), lo, hi)
  {
    var c := Mark(l, i, u);
    forall k | 0 <= k < |c| ensures Abuts(c, k, hi) {
      assert Abuts(l, k, hi);
    }
  }

  /** Allocation keeps the layout canonical ... */
  lemma TakenCanonical(l: Layout, lo: int, hi: int, i: nat, n: nat)
    requires Canonical(l, lo, hi) && i < |l| && !l[i].used && l[i].size >= n && n % ALIGN == 0
    ensures Canonical(Taken(l, i, n), lo, hi)
  {
    if l[i].size >= n + HEADER + MINIALLOC {
      CutTiled(l, lo, hi, i, n, true);
      CutAligned(l, i, n, true);
      CutAt(l, i, n, true);
    } else {
      MarkTiled(l, lo, hi, i, true);
    }
    var m := Taken(l, i, n);
    forall k | 0 <= k < |m| ensures Mixed(m, k) {
      assert Mixed(l, if k <= i || |m| == |l| then k else k - 1);
    }
  }

  lemma MarkCanonical(l: Layout, lo: int, hi: int, i: nat)
    requires Canonical(l, lo, hi) && i < |l|
    ensures Canonical(Mark(l, i, true), lo, hi)
  {
    MarkTiled(l, lo, hi, i, true);
    forall k | 0 <= k < |l| ensures Mixed(Mark(l, i, true), k) {
      assert Mixed(l, k);
    }
  }

  /** ... and adds exactly one live block, at the address of the free one and big enough. */
  lemma TakenLive(l: Layout, lo: int, hi: int, i: nat, n: nat)
    requires Tiled(l, lo, hi) && i < |l| && !l[i].used && l[i].size >= n
    ensures var b := Taken(l, i, n)[i];
            && b.used && b.addr == l[i].addr && b.size >= n
            && b !in Live(l) && Live(Taken(l, i, n)) == Live(l) + {b}
  {
    var m := Taken(l, i, n);
    if l[i].size >= n + HEADER + MINIALLOC {
      CutAt(l, i, n, true);
      forall b | b in Live(l) ensures b in Live(m) {
        var k :| 0 <= k < |l| && l[k] == b;
        assert b == m[if k < i then k else k + 1];
      }
    } else {
      forall b | b in Live(l) ensures b in Live(m) {
        var k :| 0 <= k < |l| && l[k] == b;
        assert b == m[k];
      }
    }
    if m[i] in Live(l) {
      var k :| 0 <= k < |l| && l[k] == m[i] && l[k].used;
      FindAt(l, lo, hi, k);
      FindAt(l, lo, hi, i);
    }
  }

  lemma TakenBytes(l: Layout, i: nat, n: nat)
    requires i < |l| && !l[i].used && l[i].size >= n
    ensures FreeBytes(Taken(l, i, n)) ==
            FreeBytes(l) - (if l[i].size >= n + HEADER + MINIALLOC then n + HEADER else l[i].size)
  {
    if l[i].size >= n + HEADER + MINIALLOC {
      CutBytes(l, i, n, true);
    } else {
      MarkBytes(l, i, true);
    }
  }

  lemma JoinLive(l: Layout, i: nat)
    requires i + 1 < |l| && !l[i].used && !l[i + 1].used
    ensures Live(Join(l, i)) == Live(l)
  {
    var m := Join(l, i);
    JoinAt(l, i);
    forall b | b in Live(l) ensures b in Live(m) {
      var k :| 0 <= k < |l| && l[k] == b;
      assert b == m[if k < i then k else k - 1];
    }
  }

  lemma MarkLive(l: Layout, lo: int, hi: int, i: nat)
    requires Tiled(l, lo, hi) && i < |l| && l[i].used
    ensures Live(Mark(l, i, false)) == Live(l) - {l[i]}
  {
    var m := Mark(l, i, false);
    forall b | b in Live(l) && b != l[i] ensures b in Live(m) {
      var k :| 0 <= k < |l| && l[k] == b;
      assert b == m[k];
    }
    if l[i] in Live(m) {
      var k :| 0 <= k < |m| && m[k] == l[i] && m[k].used;
      FindAt(l, lo, hi, k);
      FindAt(l, lo, hi, i);
    }
  }

  /** A tiled layout in which only free block i may touch a free neighbour. */
  ghost predicate Open(l: Layout, lo: int, hi: int, i: nat) {
    && Tiled(l, lo, hi) && Aligned(l) && i < |l| && !l[i].used
    && (forall k :: 0 <= k < |l| && k != i && k + 1 != i ==> Mixed(l, k))
    && (i > 1 && !l[i - 1].used ==> l[i - 2].used)
    && (i + 2 < |l| && !l[i + 1].used ==> l[i + 2].used)
  }

  /** Joining two free blocks moves the open place to the joined block. */
  lemma JoinOpen(l: Layout, lo: int, hi: int, i: nat, k: nat)
    requires Open(l, lo, hi, i) && (k == i || k + 1 == i) && k + 1 < |l| && !l[k].used && !l[k + 1].used
    ensures Open(Join(l, k), lo, hi, k) && Live(Join(l, k)) == Live(l)
    ensures k == i ==> k + 1 < |Join(l, k)| ==> Join(l, k)[k + 1].used
    ensures k + 1 == i ==> k > 0 ==> Join(l, k)[k - 1].used
    ensures k == i && k > 0 ==> Join(l, k)[k - 1] == l[k - 1]
    ensures FreeBytes(Join(l, k)) == FreeBytes(l) + HEADER
  {
    JoinTiled(l, lo, hi, k);
    JoinAligned(l, k);
    JoinLive(l, k);
    JoinAt(l, k);
    JoinBytes(l, k);
    var m := Join(l, k);
    forall j | 0 <= j < |m| && j != k && j + 1 != k ensures Mixed(m, j) {
      assert Mixed(l, if j < k then j else j + 1);
    }
  }

  lemma MarkOpen(l: Layout, lo: int, hi: int, i: nat)
    requires Canonical(l, lo, hi) && i < |l| && l[i].used
    ensures Open(Mark(l, i, false), lo, hi, i) && Live(Mark(l, i, false)) == Live(l) - {l[i]}
    ensures FreeBytes(Mark(l, i, false)) == FreeBytes(l) + l[i].size
  {
    MarkTiled(l, lo, hi, i, false);
    MarkLive(l, lo, hi, i);
    MarkBytes(l, i, false);
    var m := Mark(l, i, false);
    forall k | 0 <= k < |m| && k != i && k + 1 != i ensures Mixed(m, k) {
      assert Mixed(l, k);
    }
    assert i > 1 ==> Mixed(l, i - 2);
    assert i + 2 < |l| ==> Mixed(l, i + 1);
  }

  /** Freeing a live block keeps the layout canonical and takes exactly that block away. */
  lemma ReleasedCanonical(l: Layout, lo: int, hi: int, i: nat)
    requires Canonical(l, lo, hi) && i < |l| && l[i].used
    ensures Canonical(Released(l, i), lo, hi)
    ensures Live(Released(l, i)) == Live(l) - {l[i]}
  {
    hide Join, Live, Mark, Tiled, Aligned, FreeBytes;
    var f := Mark(l, i, false);
    MarkOpen(l, lo, hi, i);
    var left := i > 0 && !f[i - 1].used;
    if left {
      JoinOpen(f, lo, hi, i, i - 1);
    }
    var f1 := if left then Join(f, i - 1) else f;
    var k := if left then i - 1 else i;
    if k + 1 < |f1| && !f1[k + 1].used {
      JoinOpen(f1, lo, hi, k, k);
    }
    OpenClosed(Released(l, i), lo, hi, k);
  }

  /** An open place with no free neighbour is closed. */
  lemma OpenClosed(l: Layout, lo: int, hi: int, i: nat)
    requires Open(l, lo, hi, i) && (i > 0 ==> l[i - 1].used) && (i + 1 < |l| ==> l[i + 1].used)
    ensures Canonical(l, lo, hi)
  {
    forall k | 0 <= k < |l| ensures Mixed(l, k) {
    }
  }

  // ---------------------------------------------------------------- resizing in place

  /** Growing is a join followed by a cut. */
  lemma GrownAt(l: Layout, i: nat, n: nat)
    requires i + 1 < |l| && l[i].size <= n && n + MINIALLOC < l[i].size + l[i + 1].size
    ensures Grown(l, i, n) == Cut(Join(l, i), i, n, l[i].used)
    ensures |Grown(l, i, n)| == |l|
    ensures forall k :: 0 <= k < |l| && k != i && k != i + 1 ==> Grown(l, i, n)[k] == l[k]
    ensures Grown(l, i, n)[i] == Block(l[i].addr, n, l[i].used)
    ensures !Grown(l, i, n)[i + 1].used
  {
    hide Join, Cut;
    JoinAt(l, i);
    CutAt(Join(l, i), i, n, l[i].used);
    GrownEach(l, i, n);
    assert forall k :: 0 <= k < |l| ==> Grown(l, i, n)[k] == Cut(Join(l, i), i, n, l[i].used)[k];
  }

  lemma GrownEach(l: Layout, i: nat, n: nat)
    requires i + 1 < |l| && l[i].size <= n && n + MINIALLOC < l[i].size + l[i + 1].size
    ensures var g := Grown(l, i, n);
            && |g| == |l|
            && (forall k :: 0 <= k < |l| && k != i && k != i + 1 ==> g[k] == l[k])
            && g[i] == Block(l[i].addr, n, l[i].used)
            && g[i + 1] == Block(l[i].addr + HEADER + n, l[i].size + l[i + 1].size - n, false)
  {
  }

  /** Resizing one live block: the others stay as they are. */
  ghost predicate Resized(l: Layout, m: Layout, i: nat, n: nat)
    requires i < |l|
  {
    Live(m) == Live(l) - {l[i]} + {Block(l[i].addr, n, true)}
  }

  lemma GrownCanonical(l: Layout, lo: int, hi: int, i: nat, n: nat)
    requires Canonical(l, lo, hi) && i + 1 < |l| && l[i].used && !l[i + 1].used && n % ALIGN == 0
    requires l[i].size <= n && n + MINIALLOC < l[i].size + l[i + 1].size
    ensures Canonical(Grown(l, i, n), lo, hi)
    ensures FreeBytes(Grown(l, i, n)) == FreeBytes(l) - (n - l[i].size)
  {
    var j := Join(l, i);
    JoinTiled(l, lo, hi, i);
    JoinAligned(l, i);
    JoinAt(l, i);
    JoinBytes(l, i);
    CutTiled(j, lo, hi, i, n, true);
    CutAligned(j, i, n, true);
    CutBytes(j, i, n, true);
    GrownAt(l, i, n);
    var g := Grown(l, i, n);
    forall k | 0 <= k < |g| ensures Mixed(g, k) {
      assert Mixed(l, k);
    }
  }

  lemma GrownLive(l: Layout, lo: int, hi: int, i: nat, n: nat)
    requires Canonical(l, lo, hi) && i + 1 < |l| && l[i].used && !l[i + 1].used && n % ALIGN == 0
    requires l[i].size <= n && n + MINIALLOC < l[i].size + l[i + 1].size
    ensures Resized(l, Grown(l, i, n), i, n)
  {
    hide Grown, FreeBytes, Aligned;
    var g := Grown(l, i, n);
    GrownAt(l, i, n);
    GrownCanonical(l, lo, hi, i, n);
    assert g[i] in Live(g);
    forall b | b in Live(l) && b != l[i] ensures b in Live(g) {
      var k :| 0 <= k < |l| && l[k] == b;
      assert b == g[k];
    }
    forall b | b in Live(g) && b != g[i] ensures b in Live(l) && b != l[i] {
      var k :| 0 <= k < |g| && g[k] == b;
      assert b == l[k];
      FindAt(l, lo, hi, k);
      FindAt(l, lo, hi, i);
    }
  }

  lemma ShrunkCanonical(l: Layout, lo: int, hi: int, i: nat, n: nat)
    requires Canonical(l, lo, hi) && i < |l| && l[i].used && l[i].size >= n + HEADER && n % ALIGN == 0
    ensures Canonical(Shrunk(l, i, n), lo, hi)
    ensures Resized(l, Shrunk(l, i, n), i, n)
    ensures FreeBytes(Shrunk(l, i, n)) == FreeBytes(l) + l[i].size - n - HEADER
                                          + if i + 1 < |l| && !l[i + 1].used then HEADER else 0
  {
    hide Cut, Join, FreeBytes, Live, Tiled, Aligned;
    assert i + 1 < |l| ==> Mixed(l, i + 1);
    var c := Cut(l, i, n, true);
    CutTiled(l, lo, hi, i, n, true);
    CutAligned(l, i, n, true);
    CutBytes(l, i, n, true);
    CutAt(l, i, n, true);
    CutLive(l, lo, hi, i, n);
    forall k | 0 <= k < |c| && k != i + 1 && k != i ensures Mixed(c, k) {
      assert Mixed(l, if k <= i then k else k - 1);
    }
    if i + 2 < |c| && !c[i + 2].used {
      JoinOpen(c, lo, hi, i + 1, i + 1);
    }
    OpenClosed(Shrunk(l, i, n), lo, hi, i + 1);
  }

  lemma CutLive(l: Layout, lo: int, hi: int, i: nat, n: nat)
    requires Tiled(l, lo, hi) && i < |l| && l[i].used && l[i].size >= n + HEADER
    ensures Resized(l, Cut(l, i, n, true), i, n)
  {
    var c := Cut(l, i, n, true);
    CutAt(l, i, n, true);
    assert c[i] in Live(c);
    forall b | b in Live(l) && b != l[i] ensures b in Live(c) {
      var k :| 0 <= k < |l| && l[k] == b;
      assert b == c[if k < i then k else k + 1];
    }
    forall b | b in Live(c) && b != c[i] ensures b in Live(l) && b != l[i] {
      var k :| 0 <= k < |c| && c[k] == b;
      var k' := if k < i then k else k - 1;
      assert b == l[k'];
      FindAt(l, lo, hi, k');
      FindAt(l, lo, hi, i);
    }
  }

  // ---------------------------------------------------------------- canonical forms

  /** A canonical layout is determined by the blocks that are live: how they came to be
      allocated and freed leaves no trace. */
  lemma {:induction false} CanonicalUnique(l: Layout, m: Layout, lo: int, hi: int)
    requires Canonical(l, lo, hi) && Canonical(m, lo, hi) && Live(l) == Live(m)
    ensures l == m
    decreases |l|
  {
    if l == [] {
      if m != [] {
        Apart(m, lo, hi, 0, |m|);
      }
    } else if m == [] {
      Apart(l, lo, hi, 0, |l|);
    } else {
      SameHead(l, m, lo, hi);
      var mid := Edge(l, 1, hi);
      assert Abuts(l, 0, hi) && Abuts(m, 0, hi);
      TailCanonical(l, lo, hi);
      TailCanonical(m, lo, hi);
      CanonicalUnique(l[1..], m[1..], mid, hi);
    }
  }

  lemma TailCanonical(l: Layout, lo: int, hi: int)
    requires Canonical(l, lo, hi) && l != []
    ensures Canonical(l[1..], Edge(l, 1, hi), hi)
    ensures Live(l[1..]) == Live(l) - {l[0]}
  {
    var t := l[1..];
    forall i | 0 <= i < |t| ensures Abuts(t, i, hi) && Mixed(t, i) {
      assert Abuts(l, i + 1, hi) && Mixed(l, i + 1);
    }
    if l[0] in t {
      var k :| 0 <= k < |t| && t[k] == l[0];
      Apart(l, lo, hi, 0, k + 1);
    }
    forall b | b in Live(l) && b != l[0] ensures b in Live(t) {
      var k :| 0 <= k < |l| && l[k] == b;
      assert b == t[k - 1];
    }
  }

  /** A free head reaches up to the first live block, or to the end. */
  lemma FreeHead(l: Layout, m: Layout, lo: int, hi: int)
    requires Canonical(l, lo, hi) && Canonical(m, lo, hi) && Live(l) == Live(m)
    requires l != [] && m != [] && !l[0].used
    ensures !m[0].used && m[0].size <= l[0].size
  {
    if m[0].used {
      assert m[0] in Live(l);
      var k :| 0 <= k < |l| && l[k] == m[0];
      Apart(l, lo, hi, 0, k);
    }
    assert Abuts(l, 0, hi) && Abuts(m, 0, hi) && Mixed(l, 0);
    if |l| > 1 {
      assert l[1] in Live(m);
      var k :| 0 <= k < |m| && m[k] == l[1];
      Apart(m, lo, hi, 0, k);
    } else {
      Apart(m, lo, hi, 0, |m|);
    }
  }

  lemma SameHead(l: Layout, m: Layout, lo: int, hi: int)
    requires Canonical(l, lo, hi) && Canonical(m, lo, hi) && Live(l) == Live(m)
    requires l != [] && m != []
    ensures l[0] == m[0]
  {
    if !l[0].used {
      FreeHead(l, m, lo, hi);
      FreeHead(m, l, lo, hi);
    } else if !m[0].used {
      FreeHead(m, l, lo, hi);
    } else {
      assert l[0] in Live(m);
      var k :| 0 <= k < |m| && m[k] == l[0];
      if k > 0 {
        Apart(m, lo, hi, 0, k);
      }
    }
  }

  /** Freeing what was just allocated restores the very layout there was before. */
  lemma ReleaseUndoesTake(l: Layout, lo: int, hi: int, i: nat, n: nat)
    requires Canonical(l, lo, hi) && i < |l| && !l[i].used && l[i].size >= n && n % ALIGN == 0
    ensures Released(Taken(l, i, n), i) == l
  {
    var t := Taken(l, i, n);
    TakenCanonical(l, lo, hi, i, n);
    TakenLive(l, lo, hi, i, n);
    ReleasedCanonical(t, lo, hi, i);
    assert Live(Released(t, i)) == Live(l);
    CanonicalUnique(Released(t, i), l, lo, hi);
  }
}
