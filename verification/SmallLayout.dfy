/** The block chains a heap of src/mem.c can hold: headers in ascending order, each block reaching to
    the next header.  What allocation, release and shrinking do to the chain, and what they keep. */
module SmallLayout {
  import opened Basics

  /** SIZEOF_STRUCT_MEM, MIN_SIZE_ALIGNED and RT_ALIGN_SIZE on a 32-bit machine */
  const HEADER: nat := 12
  const MIN_SIZE: nat := 12
  const ALIGN: nat := 4

  /** A header: its offset in the heap, and the used flag. */
  datatype Cell = Cell(at: nat, used: bool)

  type Chain = seq<Cell>

  /** The offset where block i - 1 ends and block i begins; past the last block that is heap_end. */
  function Edge(l: Chain, i: nat, end: nat): nat
    requires i <= |l|
  {
    if i < |l| then l[i].at else end
  }

  /** Block i has room for its header, and starts aligned. */
  ghost predicate Sized(l: Chain, i: nat, end: nat)
    requires i < |l|
  {
    l[i].at % ALIGN == 0 && l[i].at + HEADER <= Edge(l, i + 1, end)
  }

  ghost predicate Mixed(l: Chain, i: nat)
    requires i < |l|
  {
    i + 1 < |l| ==> l[i].used || l[i + 1].used
  }

  /** The chain starts at 0 and ascends to heap_end. */
  ghost predicate Placed(l: Chain, end: nat) {
    l != [] && l[0].at == 0 && end % ALIGN == 0 && forall i :: 0 <= i < |l| ==> Sized(l, i, end)
  }

  /** Moreover no two neighbours are free. */
  ghost predicate Canonical(l: Chain, end: nat) {
    Placed(l, end) && forall i :: 0 <= i < |l| ==> Mixed(l, i)
  }

  /** The payload bytes of block i */
  function Room(l: Chain, i: nat, end: nat): int
    requires i < |l|
  {
    Edge(l, i + 1, end) - l[i].at - HEADER
  }

  /** A block handed out: its header's offset and where it ends. */
  datatype Block = Block(at: nat, next: nat)

  function BlockAt(l: Chain, i: nat, end: nat): Block
    requires i < |l|
  {
    Block(l[i].at, Edge(l, i + 1, end))
  }

  ghost predicate LiveBlock(l: Chain, end: nat, b: Block) {
    exists i :: 0 <= i < |l| && l[i].used && BlockAt(l, i, end) == b
  }

  /** The summed extents of the used blocks. */
  function UsedBytes(l: Chain, end: nat): int {
    if l == [] then 0 else (if l[0].used then Edge(l, 1, end) - l[0].at else 0) + UsedBytes(l[1..], end)
  }

  /** The first free header from block i on, or heap_end. */
  function FirstFree(l: Chain, i: nat, end: nat): nat
    requires i <= |l|
    decreases |l| - i
  {
    if i == |l| then end else if !l[i].used then l[i].at else FirstFree(l, i + 1, end)
  }

  /** lfree is a free header or heap_end. */
  ghost predicate HintOk(l: Chain, end: nat, lfree: nat) {
    lfree == end || exists i :: 0 <= i < |l| && l[i] == Cell(lfree, false)
  }

  /** lfree is the lowest free header. */
  ghost predicate HintLowest(l: Chain, end: nat, lfree: nat) {
    lfree == FirstFree(l, 0, end)
  }

  // ---------------------------------------------------------------- order

  lemma {:induction false} Ascending(l: Chain, end: nat, i: nat, j: nat)
    requires Placed(l, end) && i < j <= |l|
    ensures l[i].at + HEADER <= Edge(l, j, end)
    decreases j - i
  {
    assert Sized(l, i, end);
    if i + 1 < j {
      Ascending(l, end, i + 1, j);
    }
  }

  lemma SameHeader(l: Chain, end: nat, i: nat, j: nat)
    requires Placed(l, end) && i < |l| && j < |l| && l[i].at == l[j].at
    ensures i == j
  {
    if i < j {
      Ascending(l, end, i, j);
    } else if j < i {
      Ascending(l, end, j, i);
    }
  }

  /** A payload byte belongs to one block only, to no header, and lies inside the heap. */
  lemma PayloadsDisjoint(l: Chain, end: nat, i: nat, j: nat, x: nat)
    requires Placed(l, end) && i < |l| && j < |l|
    requires l[i].at + HEADER <= x < Edge(l, i + 1, end)
    ensures x < end
    ensures l[j].at <= x < Edge(l, j + 1, end) ==> i == j
    ensures !(l[j].at <= x < l[j].at + HEADER)
  {
    if i + 1 < |l| {
      Ascending(l, end, i + 1, |l|);
    }
    if i < j {
      Ascending(l, end, i, j);
      if i + 1 < j {
        Ascending(l, end, i + 1, j);
      }
    } else if j < i {
      Ascending(l, end, j, i);
      if j + 1 < i {
        Ascending(l, end, j + 1, i);
      }
    }
  }

  // ---------------------------------------------------------------- the hint

  lemma {:induction false} FirstFreeProps(l: Chain, i: nat, end: nat) returns (k: nat)
    requires i <= |l|
    ensures i <= k <= |l| && FirstFree(l, i, end) == Edge(l, k, end)
    ensures (k < |l| ==> !l[k].used) && forall j :: i <= j < k ==> l[j].used
    decreases |l| - i
  {
    if i == |l| || !l[i].used {
      k := i;
    } else {
      k := FirstFreeProps(l, i + 1, end);
    }
  }

  lemma {:induction false} FirstFreeIs(l: Chain, i: nat, end: nat, k: nat)
    requires i <= k <= |l| && (k < |l| ==> !l[k].used) && forall j :: i <= j < k ==> l[j].used
    ensures FirstFree(l, i, end) == Edge(l, k, end)
    decreases |l| - i
  {
    if i < k {
      FirstFreeIs(l, i + 1, end, k);
    }
  }

  // ---------------------------------------------------------------- the search

  /** Block i is free and has size bytes. */
  predicate Fits(l: Chain, i: nat, end: nat, size: nat)
    requires i < |l|
  {
    !l[i].used && Room(l, i, end) >= size
  }

  /** The block found by the scan from block i for headers below bound, or |l|. */
  function Scan(l: Chain, i: nat, end: nat, bound: nat, size: nat): (k: nat)
    requires i <= |l|
    ensures i <= k <= |l|
    decreases |l| - i
  {
    if i == |l| || l[i].at >= bound then |l|
    else if Fits(l, i, end, size) then i
    else Scan(l, i + 1, end, bound, size)
  }

  /** The scan finds the first fitting block whose header lies below the bound. */
  lemma {:induction false} ScanExact(l: Chain, i: nat, end: nat, bound: nat, size: nat)
    requires Canonical(l, end) && i <= |l|
    ensures var k := Scan(l, i, end, bound, size);
            && (k < |l| ==> Fits(l, k, end, size) && l[k].at < bound)
            && forall j :: i <= j < k ==> l[j].at >= bound || !Fits(l, j, end, size)
    decreases |l| - i
  {
    if i < |l| && l[i].at >= bound {
      forall j | i <= j < |l| ensures l[j].at >= bound {
        if i < j {
          Ascending(l, end, i, j);
        }
      }
    } else if i < |l| && !Fits(l, i, end, size) {
      ScanExact(l, i + 1, end, bound, size);
    }
  }

  /** The hint is a faithful shortcut: blocks before the lowest free one cannot fit, so the scan from
      the hint finds what the scan from the start of the heap finds. */
  lemma {:induction false} HintFaithful(l: Chain, i: nat, k: nat, end: nat, bound: nat, size: nat)
    requires Canonical(l, end) && i <= k <= |l| && forall j :: i <= j < k ==> l[j].used
    ensures Scan(l, i, end, bound, size) == Scan(l, k, end, bound, size)
    decreases k - i
  {
    if i < k {
      if l[i].at >= bound {
        if k < |l| {
          Ascending(l, end, i, k);
        }
      } else {
        HintFaithful(l, i + 1, k, end, bound, size);
      }
    }
  }

  // ---------------------------------------------------------------- effects

  /** A request rounded up: RT_ALIGN, then at least MIN_SIZE_ALIGNED */
  function Aligned(size: nat): (n: nat)
    ensures size <= n < size + ALIGN && n % ALIGN == 0
  {
    (size + ALIGN - 1) / ALIGN * ALIGN
  }

  function Fit(size: nat): (n: nat)
    ensures n >= size && n >= MIN_SIZE && n % ALIGN == 0
  {
    if Aligned(size) < MIN_SIZE then MIN_SIZE else Aligned(size)
  }

  /** n is the least aligned size that holds the request and is no shorter than MIN_SIZE_ALIGNED. */
  ghost predicate Rounded(request: nat, n: nat) {
    && n >= request && n >= MIN_SIZE && n % ALIGN == 0
    && forall m: nat :: m >= request && m >= MIN_SIZE && m % ALIGN == 0 ==> n <= m
  }

  lemma FitExact(request: nat, n: nat)
    ensures Rounded(request, n) <==> n == Fit(request)
  {
    forall m: nat | m >= request && m >= MIN_SIZE && m % ALIGN == 0 ensures Fit(request) <= m {
      FitLeast(request, m);
    }
  }

  lemma FitLeast(request: nat, m: nat)
    requires m >= request && m >= MIN_SIZE && m % ALIGN == 0
    ensures Fit(request) <= m
  {
  }

  /** The rest of free block i is large enough to be a block. */
  predicate Splits(l: Chain, i: nat, end: nat, size: nat)
    requires i < |l|
  {
    Room(l, i, end) >= size + HEADER + MIN_SIZE
  }

  /** Block i cut after size bytes; the rest is a new free block. */
  function Cut(l: Chain, i: nat, size: nat): Chain
    requires i < |l|
  {
    InsertAt(l, i + 1, Cell(l[i].at + HEADER + size, false))
  }

  function Mark(l: Chain, i: nat, used: bool): Chain
    requires i < |l|
  {
    l[i := Cell(l[i].at, used)]
  }

  /** rt_malloc out of free block i */
  function Taken(l: Chain, i: nat, end: nat, size: nat): Chain
    requires i < |l|
  {
    if Splits(l, i, end, size) then Cut(Mark(l, i, true), i, size) else Mark(l, i, true)
  }

  /** plug_holes of free block i, forward */
  function Forward(l: Chain, i: nat): Chain
    requires i < |l|
  {
    if i + 1 < |l| && !l[i + 1].used then RemoveAt(l, i + 1) else l
  }

  /** plug_holes of free block i, backward */
  function Backward(l: Chain, i: nat): Chain
    requires i < |l|
  {
    if i > 0 && !l[i - 1].used then RemoveAt(l, i) else l
  }

  function Plugged(l: Chain, i: nat): Chain
    requires i < |l|
  {
    Backward(Forward(l, i), i)
  }

  /** rt_free of block i */
  function Released(l: Chain, i: nat): Chain
    requires i < |l|
  {
    Plugged(Mark(l, i, false), i)
  }

  /** rt_realloc cutting block i down to size bytes */
  function Shrunk(l: Chain, i: nat, size: nat): Chain
    requires i < |l|
  {
    Plugged(Cut(l, i, size), i + 1)
  }

  /** The hint after plug_holes of block i. */
  function PluggedHint(l: Chain, i: nat, lfree: nat): nat
    requires i < |l|
  {
    var f := if i + 1 < |l| && !l[i + 1].used && lfree == l[i + 1].at then l[i].at else lfree;
    if i > 0 && !l[i - 1].used && f == l[i].at then l[i - 1].at else f
  }

  /** The hint after rt_free of block i. */
  function ReleasedHint(l: Chain, i: nat, lfree: nat): nat
    requires i < |l|
  {
    PluggedHint(Mark(l, i, false), i, if l[i].at < lfree then l[i].at else lfree)
  }

  /** The hint after rt_malloc out of block i. */
  function TakenHint(l: Chain, i: nat, end: nat, size: nat, lfree: nat): nat
    requires i < |l|
  {
    if l[i].at == lfree then FirstFree(Taken(l, i, end, size), i, end) else lfree
  }

  // ---------------------------------------------------------------- what they keep

  lemma MarkCanonical(l: Chain, end: nat, i: nat)
    requires Canonical(l, end) && i < |l|
    ensures Canonical(Mark(l, i, true), end)
  {
    var m := Mark(l, i, true);
    forall k | 0 <= k < |m| ensures Sized(m, k, end) && Mixed(m, k) {
      assert Sized(l, k, end) && Mixed(l, k);
    }
  }

  lemma CutPlaced(l: Chain, end: nat, i: nat, size: nat)
    requires Placed(l, end) && i < |l| && size % ALIGN == 0 && Room(l, i, end) >= size + HEADER
    ensures Placed(Cut(l, i, size), end)
  {
    var c := Cut(l, i, size);
    InsertAtAt(l, i + 1, Cell(l[i].at + HEADER + size, false));
    hide InsertAt;
    forall k | 0 <= k < |c| ensures Sized(c, k, end) {
      assert Sized(l, if k <= i then k else k - 1, end);
    }
  }

  lemma RemovePlaced(l: Chain, end: nat, i: nat)
    requires Placed(l, end) && 0 < i < |l|
    ensures Placed(RemoveAt(l, i), end)
  {
    RemoveAtAt(l, i);
    hide RemoveAt;
    var c := RemoveAt(l, i);
    forall k | 0 <= k < |c| ensures Sized(c, k, end) {
      assert Sized(l, if k < i then k else k + 1, end);
      assert Sized(l, i, end);
    }
  }

  lemma TakenCanonical(l: Chain, end: nat, i: nat, size: nat)
    requires Canonical(l, end) && i < |l| && Fits(l, i, end, size) && size % ALIGN == 0
    ensures Canonical(Taken(l, i, end, size), end)
  {
    var m := Mark(l, i, true);
    MarkCanonical(l, end, i);
    if Splits(l, i, end, size) {
      CutPlaced(m, end, i, size);
      var c := Cut(m, i, size);
      InsertAtAt(m, i + 1, Cell(m[i].at + HEADER + size, false));
      hide InsertAt;
      assert Mixed(l, i);
      forall k | 0 <= k < |c| ensures Mixed(c, k) {
        assert Mixed(m, if k <= i then k else k - 1);
      }
    }
  }

  /** All but block i are apart from free neighbours. */
  ghost predicate OpenAt(l: Chain, i: nat) {
    i < |l| && !l[i].used && forall k :: 0 <= k < |l| && k != i && k + 1 != i ==> Mixed(l, k)
  }

  lemma PluggedCanonical(l: Chain, end: nat, i: nat)
    requires Placed(l, end) && OpenAt(l, i)
    requires i > 1 && !l[i - 1].used ==> l[i - 2].used
    requires i + 2 < |l| && !l[i + 1].used ==> l[i + 2].used
    ensures Canonical(Plugged(l, i), end)
  {
    var f := Forward(l, i);
    if f != l {
      RemovePlaced(l, end, i + 1);
      RemoveAtAt(l, i + 1);
    }
    var c := Plugged(l, i);
    if c != f {
      RemovePlaced(f, end, i);
      RemoveAtAt(f, i);
    }
    hide RemoveAt;
    assert forall k :: 0 <= k < i ==> f[k] == l[k];
    forall k | 0 <= k < |f| && k != i && k + 1 != i ensures Mixed(f, k) {
      assert Mixed(l, if f != l && k > i then k + 1 else k);
      if f == l && k < i {
        assert f[k + 1] == l[k + 1];
      }
    }
    forall k | 0 <= k < |c| ensures Mixed(c, k) {
      if c == f {
        assert k != i && k + 1 != i ==> Mixed(f, k);
      } else if k + 1 < i {
        assert k + 2 != i ==> Mixed(f, k);
      } else if k >= i {
        assert Mixed(f, k + 1);
      }
    }
  }

  lemma ReleasedCanonical(l: Chain, end: nat, i: nat)
    requires Canonical(l, end) && i < |l| && l[i].used
    ensures Canonical(Released(l, i), end)
  {
    var m := Mark(l, i, false);
    forall k | 0 <= k < |m| ensures Sized(m, k, end) {
      assert Sized(l, k, end);
    }
    forall k | 0 <= k < |m| && k != i && k + 1 != i ensures Mixed(m, k) {
      assert Mixed(l, k);
    }
    if i > 1 {
      assert Mixed(l, i - 2);
    }
    if i + 1 < |l| {
      assert Mixed(l, i + 1);
    }
    PluggedCanonical(m, end, i);
  }

  lemma ShrunkCanonical(l: Chain, end: nat, i: nat, size: nat)
    requires Canonical(l, end) && i < |l| && l[i].used && size % ALIGN == 0 && Room(l, i, end) >= size + HEADER
    ensures Canonical(Shrunk(l, i, size), end)
  {
    var c := Cut(l, i, size);
    CutPlaced(l, end, i, size);
    InsertAtAt(l, i + 1, Cell(l[i].at + HEADER + size, false));
    hide InsertAt;
    forall k | 0 <= k < |c| && k != i + 1 && k + 1 != i + 1 ensures Mixed(c, k) {
      assert Mixed(l, if k < i then k else k - 1);
    }
    if i + 1 < |l| {
      assert Mixed(l, i + 1);
    }
    PluggedCanonical(c, end, i + 1);
  }

  // ---------------------------------------------------------------- used_mem

  lemma {:induction false} UsedConcat(a: Chain, b: Chain, end: nat)
    ensures UsedBytes(a + b, end) == UsedBytes(a, Edge(b, 0, end)) + UsedBytes(b, end)
  {
    if a == [] {
      assert a + b == b;
    } else {
      assert (a + b)[1..] == a[1..] + b;
      UsedConcat(a[1..], b, end);
    }
  }

  function UsedOf(c: Cell, next: nat): int {
    if c.used then next - c.at else 0
  }

  lemma UsedSplit(l: Chain, i: nat, end: nat)
    requires i < |l|
    ensures UsedBytes(l, end) == UsedBytes(l[..i], l[i].at) + UsedOf(l[i], Edge(l, i + 1, end)) + UsedBytes(l[i + 1..], end)
  {
    assert l == l[..i] + l[i..];
    UsedConcat(l[..i], l[i..], end);
    assert l[i..][1..] == l[i + 1..];
  }

  lemma UsedMark(l: Chain, i: nat, end: nat, used: bool)
    requires i < |l|
    ensures UsedBytes(Mark(l, i, used), end) ==
            UsedBytes(l, end) - UsedOf(l[i], Edge(l, i + 1, end)) + UsedOf(Cell(l[i].at, used), Edge(l, i + 1, end))
  {
    UsedSplit(l, i, end);
    UsedSplit(Mark(l, i, used), i, end);
    assert Mark(l, i, used)[..i] == l[..i] && Mark(l, i, used)[i + 1..] == l[i + 1..];
  }

  lemma UsedCut(l: Chain, i: nat, end: nat, size: nat)
    requires i < |l|
    ensures UsedBytes(Cut(l, i, size), end) ==
            UsedBytes(l, end) - UsedOf(l[i], Edge(l, i + 1, end)) + UsedOf(l[i], l[i].at + HEADER + size)
  {
    var c := Cut(l, i, size);
    UsedSplit(l, i, end);
    UsedSplit(c, i, end);
    UsedSplit(c, i + 1, end);
    assert c[..i] == l[..i] && c[i + 2..] == l[i + 1..];
    assert c[i + 1..][1..] == c[i + 2..] && c[i + 1..] == [c[i + 1]] + c[i + 2..];
  }

  lemma UsedRemoveFree(l: Chain, i: nat, end: nat)
    requires 0 < i < |l| && !l[i].used && !l[i - 1].used
    ensures UsedBytes(RemoveAt(l, i), end) == UsedBytes(l, end)
  {
    var c := RemoveAt(l, i);
    UsedSplit(l, i - 1, end);
    UsedSplit(c, i - 1, end);
    assert c[..i - 1] == l[..i - 1] && c[i..] == l[i + 1..];
    assert l[i - 1 + 1..] == l[i..] && l[i..][1..] == l[i + 1..];
  }

  lemma UsedPlugged(l: Chain, i: nat, end: nat)
    requires i < |l| && !l[i].used
    ensures UsedBytes(Plugged(l, i), end) == UsedBytes(l, end)
  {
    var f := Forward(l, i);
    if f != l {
      UsedRemoveFree(l, i + 1, end);
    }
    if Plugged(l, i) != f {
      UsedRemoveFree(f, i, end);
    }
  }

  /** used_mem moves by exactly the extent of the block taken, released or cut off. */
  lemma UsedTaken(l: Chain, i: nat, end: nat, size: nat)
    requires i < |l| && !l[i].used
    ensures UsedBytes(Taken(l, i, end, size), end) ==
            UsedBytes(l, end) + Edge(Taken(l, i, end, size), i + 1, end) - l[i].at
  {
    UsedMark(l, i, end, true);
    if Splits(l, i, end, size) {
      UsedCut(Mark(l, i, true), i, end, size);
    }
  }

  lemma UsedReleased(l: Chain, i: nat, end: nat)
    requires i < |l| && l[i].used
    ensures UsedBytes(Released(l, i), end) == UsedBytes(l, end) - (Edge(l, i + 1, end) - l[i].at)
  {
    UsedMark(l, i, end, false);
    UsedPlugged(Mark(l, i, false), i, end);
  }

  lemma UsedShrunk(l: Chain, i: nat, end: nat, size: nat)
    requires i < |l| && l[i].used
    ensures UsedBytes(Shrunk(l, i, size), end) == UsedBytes(l, end) - (Room(l, i, end) - size)
  {
    UsedCut(l, i, end, size);
    UsedPlugged(Cut(l, i, size), i + 1, end);
  }

  // ---------------------------------------------------------------- live blocks

  lemma RemoveFreeLive(l: Chain, i: nat, end: nat, b: Block)
    requires 0 < i < |l| && !l[i].used && !l[i - 1].used
    ensures LiveBlock(RemoveAt(l, i), end, b) <==> LiveBlock(l, end, b)
  {
    RemoveAtAt(l, i);
    var c := RemoveAt(l, i);
    hide RemoveAt;
    if LiveBlock(l, end, b) {
      var k :| 0 <= k < |l| && l[k].used && BlockAt(l, k, end) == b;
      assert BlockAt(c, if k < i then k else k - 1, end) == b;
    }
    if LiveBlock(c, end, b) {
      var k :| 0 <= k < |c| && c[k].used && BlockAt(c, k, end) == b;
      assert BlockAt(l, if k < i then k else k + 1, end) == b;
    }
  }

  lemma PluggedLive(l: Chain, i: nat, end: nat, b: Block)
    requires i < |l| && !l[i].used
    ensures LiveBlock(Plugged(l, i), end, b) <==> LiveBlock(l, end, b)
  {
    var f := Forward(l, i);
    if f != l {
      RemoveFreeLive(l, i + 1, end, b);
    }
    if Plugged(l, i) != f {
      RemoveFreeLive(f, i, end, b);
    }
  }

  lemma MarkLive(l: Chain, i: nat, end: nat, used: bool, b: Block)
    requires Canonical(l, end) && i < |l|
    ensures LiveBlock(Mark(l, i, used), end, b) <==> if b == BlockAt(l, i, end) then used else LiveBlock(l, end, b)
  {
    var m := Mark(l, i, used);
    assert BlockAt(m, i, end) == BlockAt(l, i, end);
    if LiveBlock(l, end, b) && b != BlockAt(l, i, end) {
      var k :| 0 <= k < |l| && l[k].used && BlockAt(l, k, end) == b;
      assert BlockAt(m, k, end) == b;
    }
    if LiveBlock(m, end, b) {
      var k :| 0 <= k < |m| && m[k].used && BlockAt(m, k, end) == b;
      assert BlockAt(l, k, end) == b;
      if b == BlockAt(l, i, end) {
        SameHeader(l, end, i, k);
      }
    }
  }

  /** Cutting a used block shortens it and makes nothing else live. */
  lemma CutLive(l: Chain, i: nat, end: nat, size: nat, b: Block)
    requires Canonical(l, end) && i < |l| && l[i].used
    ensures LiveBlock(Cut(l, i, size), end, b) <==>
            b == Block(l[i].at, l[i].at + HEADER + size) || (LiveBlock(l, end, b) && b.at != l[i].at)
  {
    var c := Cut(l, i, size);
    InsertAtAt(l, i + 1, Cell(l[i].at + HEADER + size, false));
    hide InsertAt;
    assert BlockAt(c, i, end) == Block(l[i].at, l[i].at + HEADER + size);
    if LiveBlock(l, end, b) && b.at != l[i].at {
      var k :| 0 <= k < |l| && l[k].used && BlockAt(l, k, end) == b;
      assert BlockAt(c, if k < i then k else k + 1, end) == b;
    }
    if LiveBlock(c, end, b) {
      var k :| 0 <= k < |c| && c[k].used && BlockAt(c, k, end) == b;
      if k != i {
        var k' := if k < i then k else k - 1;
        assert BlockAt(l, k', end) == b;
        if l[k'].at == l[i].at {
          SameHeader(l, end, k', i);
        }
      }
    }
  }

  lemma LiveAt(l: Chain, end: nat, i: nat, b: Block)
    requires Canonical(l, end) && i < |l| && LiveBlock(l, end, b)
    ensures b.at == l[i].at <==> b == BlockAt(l, i, end)
  {
    var k :| 0 <= k < |l| && l[k].used && BlockAt(l, k, end) == b;
    if b.at == l[i].at {
      SameHeader(l, end, i, k);
    }
  }

  /** Allocation makes exactly one more block live. */
  lemma TakenLive(l: Chain, i: nat, end: nat, size: nat, b: Block)
    requires Canonical(l, end) && i < |l| && !l[i].used
    ensures LiveBlock(Taken(l, i, end, size), end, b) <==>
            b == BlockAt(Taken(l, i, end, size), i, end) || LiveBlock(l, end, b)
  {
    MarkLive(l, i, end, true, b);
    if LiveBlock(l, end, b) {
      LiveAt(l, end, i, b);
      var k :| 0 <= k < |l| && l[k].used && BlockAt(l, k, end) == b;
      if b.at == l[i].at {
        SameHeader(l, end, k, i);
      }
    }
    if Splits(l, i, end, size) {
      MarkCanonical(l, end, i);
      CutLive(Mark(l, i, true), i, end, size, b);
    }
  }

  /** Release makes exactly that block dead. */
  lemma ReleasedLive(l: Chain, i: nat, end: nat, b: Block)
    requires Canonical(l, end) && i < |l| && l[i].used
    ensures LiveBlock(Released(l, i), end, b) <==> b != BlockAt(l, i, end) && LiveBlock(l, end, b)
  {
    MarkLive(l, i, end, false, b);
    PluggedLive(Mark(l, i, false), i, end, b);
  }

  lemma ShrunkLive(l: Chain, i: nat, end: nat, size: nat, b: Block)
    requires Canonical(l, end) && i < |l| && l[i].used
    ensures LiveBlock(Shrunk(l, i, size), end, b) <==>
            b == Block(l[i].at, l[i].at + HEADER + size) || (LiveBlock(l, end, b) && b.at != l[i].at)
  {
    CutLive(l, i, end, size, b);
    PluggedLive(Cut(l, i, size), i + 1, end, b);
  }

  /** Releasing the block just allocated restores the very same chain. */
  lemma FreeUndoesMalloc(l: Chain, i: nat, end: nat, size: nat)
    requires Canonical(l, end) && i < |l| && Fits(l, i, end, size)
    ensures Released(Taken(l, i, end, size), i) == l
  {
    assert Mixed(l, i) && (i > 0 ==> Mixed(l, i - 1));
    hide Canonical;
    if Splits(l, i, end, size) {
      var c := Cell(l[i].at + HEADER + size, false);
      InsertThenRemove(l, i + 1, c);
      MarkInsert(l, i, c);
      InsertAtAt(l, i + 1, c);
      hide InsertAt, RemoveAt;
      assert Forward(InsertAt(l, i + 1, c), i) == l;
    } else {
      assert Mark(Mark(l, i, true), i, false) == l;
    }
  }

  lemma MarkInsert(l: Chain, i: nat, c: Cell)
    requires i < |l| && !l[i].used
    ensures Mark(InsertAt(Mark(l, i, true), i + 1, c), i, false) == InsertAt(l, i + 1, c)
  {
  }

  // ---------------------------------------------------------------- the hint after each operation

  lemma TakenHintOk(l: Chain, i: nat, end: nat, size: nat, lfree: nat)
    requires Canonical(l, end) && i < |l| && Fits(l, i, end, size) && size % ALIGN == 0 && HintOk(l, end, lfree)
    ensures HintOk(Taken(l, i, end, size), end, TakenHint(l, i, end, size, lfree))
  {
    var t := Taken(l, i, end, size);
    if l[i].at == lfree {
      var k := FirstFreeProps(t, i, end);
      assert k < |t| ==> t[k] == Cell(t[k].at, false);
    } else if lfree != end {
      var k :| 0 <= k < |l| && l[k] == Cell(lfree, false);
      InsertAtAt(Mark(l, i, true), i + 1, Cell(l[i].at + HEADER + size, false));
      assert t[if k < i || !Splits(l, i, end, size) then k else k + 1] == Cell(lfree, false);
    }
  }

  /** malloc keeps the hint lowest, when it takes a block not below it. */
  lemma TakenHintLowest(l: Chain, i: nat, end: nat, size: nat, lfree: nat)
    requires Canonical(l, end) && i < |l| && Fits(l, i, end, size) && HintLowest(l, end, lfree)
    ensures HintLowest(Taken(l, i, end, size), end, TakenHint(l, i, end, size, lfree))
  {
    var t := Taken(l, i, end, size);
    var k := FirstFreeProps(l, 0, end);
    if Splits(l, i, end, size) {
      InsertAtAt(Mark(l, i, true), i + 1, Cell(l[i].at + HEADER + size, false));
    }
    if k == i {
      var k' := FirstFreeProps(t, i, end);
      FirstFreeIs(t, 0, end, k');
    } else {
      Ascending(l, end, k, i);
      FirstFreeIs(t, 0, end, k);
    }
  }

  lemma ReleasedHintOk(l: Chain, i: nat, end: nat, lfree: nat)
    requires Canonical(l, end) && i < |l| && l[i].used && HintOk(l, end, lfree)
    ensures HintOk(Released(l, i), end, ReleasedHint(l, i, lfree))
  {
    PlacedStrict(l, end);
    var m := Mark(l, i, false);
    assert Strict(m, end);
    var f := if l[i].at < lfree then l[i].at else lfree;
    if f == lfree && lfree != end {
      var k :| 0 <= k < |l| && l[k] == Cell(lfree, false);
      assert m[k] == Cell(lfree, false);
    } else if f != end {
      assert m[i] == Cell(f, false);
    }
    PluggedHintOk(m, i, end, f);
  }

  ghost predicate Strict(l: Chain, end: nat) {
    forall j, k :: 0 <= j < k < |l| ==> l[j].at < l[k].at < end
  }

  lemma PlacedStrict(l: Chain, end: nat)
    requires Placed(l, end)
    ensures Strict(l, end) && forall i :: 0 <= i < |l| ==> l[i].at < end
  {
    forall j, k | 0 <= j < k < |l| ensures l[j].at < l[k].at < end {
      Ascending(l, end, j, k);
      Ascending(l, end, k, |l|);
    }
    forall i | 0 <= i < |l| ensures l[i].at < end {
      Ascending(l, end, i, |l|);
    }
  }

  /** A free header taken out of the chain hands the hint to the free header before it. */
  lemma RemoveHintOk(l: Chain, i: nat, end: nat, lfree: nat)
    requires 0 < i < |l| && !l[i].used && !l[i - 1].used && HintOk(l, end, lfree) && Strict(l, end)
    ensures HintOk(RemoveAt(l, i), end, if lfree == l[i].at then l[i - 1].at else lfree)
    ensures Strict(RemoveAt(l, i), end)
  {
    RemoveAtAt(l, i);
    var c := RemoveAt(l, i);
    hide RemoveAt;
    if lfree == l[i].at {
      assert c[i - 1] == Cell(l[i - 1].at, false);
    } else if lfree != end {
      var k :| 0 <= k < |l| && l[k] == Cell(lfree, false);
      assert c[if k < i then k else k - 1] == Cell(lfree, false);
    }
  }

  lemma PluggedHintOk(l: Chain, i: nat, end: nat, lfree: nat)
    requires i < |l| && !l[i].used && HintOk(l, end, lfree) && Strict(l, end)
    ensures HintOk(Plugged(l, i), end, PluggedHint(l, i, lfree))
  {
    var f := Forward(l, i);
    var h := if i + 1 < |l| && !l[i + 1].used && lfree == l[i + 1].at then l[i].at else lfree;
    if f != l {
      RemoveHintOk(l, i + 1, end, lfree);
      RemoveAtAt(l, i + 1);
    }
    assert HintOk(f, end, h) && Strict(f, end) && i < |f| && f[i] == l[i] && (i > 0 ==> f[i - 1] == l[i - 1]);
    if i > 0 && !f[i - 1].used {
      RemoveHintOk(f, i, end, h);
    }
  }

  /** free keeps the hint lowest. */
  lemma ReleasedHintLowest(l: Chain, i: nat, end: nat, lfree: nat)
    requires Canonical(l, end) && i < |l| && l[i].used && HintLowest(l, end, lfree)
    ensures HintLowest(Released(l, i), end, ReleasedHint(l, i, lfree))
  {
    PlacedStrict(l, end);
    var k := FirstFreeProps(l, 0, end);
    var m, r := Mark(l, i, false), Released(l, i);
    ReleasedFirst(l, i);
    hide Released;
    var first := if i < k then i else k;
    if k < |l| {
      Ascending(l, end, k, |l|);
    }
    FirstFreeIs(r, 0, end, first);
  }

  /** The blocks before a released one, and the first of the merged ones, stay where they are. */
  lemma ReleasedFirst(l: Chain, i: nat)
    requires i < |l|
    ensures forall j :: 0 <= j < i && j < |Released(l, i)| ==> Released(l, i)[j] == l[j]
    ensures |Released(l, i)| >= i
    ensures i == 0 || l[i - 1].used ==> |Released(l, i)| > i && Released(l, i)[i] == Cell(l[i].at, false)
  {
    var m := Mark(l, i, false);
    var f := Forward(m, i);
    if f != m {
      RemoveAtAt(m, i + 1);
    }
    if Plugged(m, i) != f {
      RemoveAtAt(f, i);
    }
  }

  /** A shrinking realloc keeps the hint a free header or heap_end. */
  lemma ShrunkHintOk(l: Chain, i: nat, end: nat, size: nat, lfree: nat)
    requires Canonical(l, end) && i < |l| && l[i].used && size % ALIGN == 0 && Room(l, i, end) >= size + HEADER && HintOk(l, end, lfree)
    ensures HintOk(Shrunk(l, i, size), end, PluggedHint(Cut(l, i, size), i + 1, lfree))
  {
    var c := Cut(l, i, size);
    CutPlaced(l, end, i, size);
    PlacedStrict(c, end);
    InsertAtAt(l, i + 1, Cell(l[i].at + HEADER + size, false));
    hide InsertAt, Placed, Strict, Plugged, PluggedHint;
    if lfree != end {
      var k :| 0 <= k < |l| && l[k] == Cell(lfree, false);
      assert c[if k <= i then k else k + 1] == Cell(lfree, false);
    }
    PluggedHintOk(c, i + 1, end, lfree);
  }

  /** But it does not keep the hint lowest: the rest cut off is overlooked, exactly unless a free block
      lies below it already or the hint was the free block it merges with. */
  lemma ShrunkHintLowest(l: Chain, i: nat, end: nat, size: nat, lfree: nat)
    requires Canonical(l, end) && i < |l| && l[i].used && Room(l, i, end) > size + HEADER && HintLowest(l, end, lfree)
    ensures HintLowest(Shrunk(l, i, size), end, PluggedHint(Cut(l, i, size), i + 1, lfree)) <==>
            lfree < l[i].at || (i + 1 < |l| && !l[i + 1].used && lfree == l[i + 1].at)
  {
    PlacedStrict(l, end);
    var k := FirstFreeProps(l, 0, end);
    var c, s := Cut(l, i, size), Shrunk(l, i, size);
    InsertAtAt(l, i + 1, Cell(l[i].at + HEADER + size, false));
    var f := Forward(c, i + 1);
    assert s == f;
    if f != c {
      RemoveAtAt(c, i + 2);
    }
    hide InsertAt, RemoveAt;
    assert forall j :: 0 <= j <= i ==> s[j] == l[j];
    assert s[i + 1] == Cell(l[i].at + HEADER + size, false);
    if k < i {
      FirstFreeIs(s, 0, end, k);
    } else {
      FirstFreeIs(s, 0, end, i + 1);
    }
  }

  /** The scan's loop guard compares without wrap-around exactly when the request is no larger than the
      heap; a heap smaller than MIN_SIZE_ALIGNED lets smaller requests through to a scan that has no end:
      at heap_end, which points to itself, the guard still holds. */
  function ScanBound(heapSize: nat, size: nat): int {
    (heapSize - size) % 0x1_0000_0000
  }

  lemma ScanEnds(heapSize: nat, request: nat)
    requires heapSize < 0x8000_0000 && 0 < Aligned(request) <= heapSize
    ensures heapSize + HEADER < ScanBound(heapSize, Fit(request)) <==> heapSize < MIN_SIZE
  {
    if heapSize < MIN_SIZE {
      assert (heapSize - MIN_SIZE) % 0x1_0000_0000 == heapSize - MIN_SIZE + 0x1_0000_0000;
    }
  }
}
