/** The heap of src/mem.c: headers linked by offsets inside the heap, the lowest-free hint, the usage
    counters and the payload bytes, proved to follow the block chains of `SmallLayout`. */
module SmallMem {
  import opened Basics
  import opened SmallLayout

  /** HEAP_MAGIC */
  const MAGIC: nat := 0x1ea0

  /** struct heap_mem */
  datatype Header = Header(magic: nat, used: bool, next: nat, prev: nat)

  type Headers = map<nat, Header>

  type Byte = bv8

  // ---------------------------------------------------------------- headers

  /** Header i says what the chain says. */
  ghost predicate Held(heads: Headers, l: Chain, i: nat, end: nat)
    requires i < |l|
  {
    && l[i].at in heads
    && heads[l[i].at] == Header(MAGIC, l[i].used, Edge(l, i + 1, end), if i == 0 then 0 else l[i - 1].at)
  }

  /** The header at heap_end is used and leads to itself; its prev is not kept up. */
  ghost predicate EndHeld(heads: Headers, end: nat) {
    end in heads && heads[end] == Header(MAGIC, true, end, heads[end].prev)
  }

  ghost predicate HeadsOk(heads: Headers, l: Chain, end: nat) {
    EndHeld(heads, end) && forall i :: 0 <= i < |l| ==> Held(heads, l, i, end)
  }

  lemma HeadAt(heads: Headers, l: Chain, i: nat, end: nat)
    requires HeadsOk(heads, l, end) && i <= |l|
    ensures Edge(l, i, end) in heads
    ensures i < |l| ==> heads[l[i].at] == Header(MAGIC, l[i].used, Edge(l, i + 1, end), if i == 0 then 0 else l[i - 1].at)
    ensures i == |l| ==> heads[end].used && heads[end].next == end && heads[end].magic == MAGIC
  {
    assert i < |l| ==> Held(heads, l, i, end);
  }

  /** Changing the used flag of header i. */
  lemma HeadsMark(heads: Headers, l: Chain, i: nat, end: nat, used: bool)
    requires Placed(l, end) && HeadsOk(heads, l, end) && i < |l|
    ensures l[i].at in heads
    ensures HeadsOk(heads[l[i].at := heads[l[i].at].(used := used, magic := MAGIC)], Mark(l, i, used), end)
  {
    HeadAt(heads, l, i, end);
    PlacedStrict(l, end);
    var m, heads' := Mark(l, i, used), heads[l[i].at := heads[l[i].at].(used := used, magic := MAGIC)];
    forall k | 0 <= k < |m| ensures Held(heads', m, k, end) {
      assert Held(heads, l, k, end);
    }
  }

  /** The headers after linking a new one behind header i, as both malloc and realloc do. */
  function CutHeads(heads: Headers, l: Chain, i: nat, end: nat, size: nat): Headers
    requires i < |l| && l[i].at in heads && Edge(l, i + 1, end) in heads
  {
    var ptr, ptr2, next := l[i].at, l[i].at + HEADER + size, Edge(l, i + 1, end);
    var heads1 := heads[ptr2 := Header(MAGIC, false, next, ptr)][ptr := heads[ptr].(next := ptr2)];
    if next != end then heads1[next := heads[next].(prev := ptr2)] else heads1
  }

  lemma HeadsCut(heads: Headers, l: Chain, i: nat, end: nat, size: nat)
    requires Placed(l, end) && HeadsOk(heads, l, end) && i < |l| && Room(l, i, end) > size + HEADER
    ensures l[i].at in heads && Edge(l, i + 1, end) in heads
    ensures HeadsOk(CutHeads(heads, l, i, end, size), Cut(l, i, size), end)
  {
    HeadAt(heads, l, i, end);
    HeadAt(heads, l, i + 1, end);
    HeadAt(heads, l, |l|, end);
    PlacedStrict(l, end);
    hide Placed, Strict, Held;
    var heads', c := CutHeads(heads, l, i, end, size), Cut(l, i, size);
    StrictEdges(l, end, i);
    assert |c| == |l| + 1;
    forall k | 0 <= k < |c| ensures Held(heads', c, k, end) {
      HeadsCutAt(heads, l, i, end, size, k);
    }
  }

  lemma HeadsCutAt(heads: Headers, l: Chain, i: nat, end: nat, size: nat, k: nat)
    requires Strict(l, end) && (forall j :: 0 <= j < |l| ==> l[j].at < end) && HeadsOk(heads, l, end) && i < |l|
    requires Room(l, i, end) > size + HEADER && k < |l| + 1
    requires l[i].at in heads && Edge(l, i + 1, end) in heads
    ensures |Cut(l, i, size)| == |l| + 1 && Held(CutHeads(heads, l, i, end, size), Cut(l, i, size), k, end)
  {
    var c := Cut(l, i, size);
    InsertAtAt(l, i + 1, Cell(l[i].at + HEADER + size, false));
    StrictEdges(l, end, i);
    var k' := if k <= i then k else if k == i + 1 then i else k - 1;
    HeadAt(heads, l, k', end);
    StrictApart(l, end, k', i);
    StrictApart(l, end, k', i + 1);
    hide InsertAt, Strict, HeadsOk;
  }

  lemma StrictEdges(l: Chain, end: nat, i: nat)
    requires Strict(l, end) && i < |l| && l[i].at < end
    ensures l[i].at < Edge(l, i + 1, end) <= end
  {
  }

  /** Two edges of a chain are in order. */
  lemma StrictApart(l: Chain, end: nat, k: nat, i: nat)
    requires Strict(l, end) && k < |l| && i <= |l| && forall j :: 0 <= j < |l| ==> l[j].at < end
    ensures k < i ==> l[k].at < Edge(l, i, end)
    ensures k > i ==> l[k].at > Edge(l, i, end)
  {
  }

  /** The headers after unlinking header i, whose block the one before it swallows. */
  function RemoveHeads(heads: Headers, l: Chain, i: nat, end: nat): Headers
    requires 0 < i < |l| && l[i - 1].at in heads && Edge(l, i + 1, end) in heads
  {
    var mem, next := l[i - 1].at, Edge(l, i + 1, end);
    var heads1 := heads[mem := heads[mem].(next := next)];
    heads1[next := heads1[next].(prev := mem)]
  }

  lemma HeadsRemove(heads: Headers, l: Chain, i: nat, end: nat)
    requires Strict(l, end) && HeadsOk(heads, l, end) && 0 < i < |l| && forall j :: 0 <= j < |l| ==> l[j].at < end
    ensures l[i - 1].at in heads && Edge(l, i + 1, end) in heads
    ensures HeadsOk(RemoveHeads(heads, l, i, end), RemoveAt(l, i), end)
  {
    HeadAt(heads, l, i - 1, end);
    HeadAt(heads, l, i + 1, end);
    HeadAt(heads, l, |l|, end);
    hide Strict, Held;
    var heads', c := RemoveHeads(heads, l, i, end), RemoveAt(l, i);
    assert |c| == |l| - 1;
    forall k | 0 <= k < |c| ensures Held(heads', c, k, end) {
      HeadsRemoveAt(heads, l, i, end, k);
    }
  }

  lemma HeadsRemoveAt(heads: Headers, l: Chain, i: nat, end: nat, k: nat)
    requires Strict(l, end) && HeadsOk(heads, l, end) && 0 < i < |l| && forall j :: 0 <= j < |l| ==> l[j].at < end
    requires l[i - 1].at in heads && Edge(l, i + 1, end) in heads && k < |l| - 1
    ensures |RemoveAt(l, i)| == |l| - 1 && Held(RemoveHeads(heads, l, i, end), RemoveAt(l, i), k, end)
  {
    RemoveAtAt(l, i);
    StrictEdges(l, end, i - 1);
    StrictEdges(l, end, i);
    var k' := if k < i then k else k + 1;
    HeadAt(heads, l, k', end);
    StrictApart(l, end, k', i - 1);
    StrictApart(l, end, k', i + 1);
    hide RemoveAt, Strict, HeadsOk;
  }

  /** The header at offset a, or the number of headers. */
  function Find(l: Chain, a: nat): (i: nat)
    ensures i <= |l| && (i < |l| ==> l[i].at == a) && forall k :: 0 <= k < i ==> l[k].at != a
  {
    if l == [] then 0
    else if l[0].at == a then 0
    else
      var i := Find(l[1..], a);
      assert forall k :: 1 <= k < 1 + i ==> l[k].at == l[1..][k - 1].at;
      1 + i
  }

  lemma FindAt(l: Chain, end: nat, i: nat)
    requires Placed(l, end) && i < |l|
    ensures Find(l, l[i].at) == i
  {
    if Find(l, l[i].at) < |l| {
      SameHeader(l, end, i, Find(l, l[i].at));
    }
  }

  lemma FindHint(l: Chain, end: nat, lfree: nat)
    requires Canonical(l, end) && HintOk(l, end, lfree)
    ensures Edge(l, Find(l, lfree), end) == lfree
    ensures Find(l, lfree) < |l| ==> !l[Find(l, lfree)].used
    ensures HintLowest(l, end, lfree) ==> forall j :: 0 <= j < Find(l, lfree) ==> l[j].used
  {
    PlacedStrict(l, end);
    if lfree != end {
      var k :| 0 <= k < |l| && l[k] == Cell(lfree, false);
      FindAt(l, end, k);
    }
    if HintLowest(l, end, lfree) {
      var k := FirstFreeProps(l, 0, end);
      if k < |l| {
        FindAt(l, end, k);
      }
    }
  }

  // ---------------------------------------------------------------- payload bytes

  /** Two states of the heap's memory that differ at most inside the header at p. */
  predicate OnlyHeader(d: seq<Byte>, d': seq<Byte>, p: nat) {
    |d'| == |d| && forall x :: 0 <= x < |d| && !(p <= x < p + HEADER) ==> d'[x] == d[x]
  }

  function Payload(d: seq<Byte>, b: Block): seq<Byte>
    requires b.at + HEADER <= b.next <= |d|
  {
    d[b.at + HEADER..b.next]
  }

  /** All payloads of the chain's live blocks are as before. */
  ghost predicate Kept(d: seq<Byte>, d': seq<Byte>, l: Chain, end: nat) {
    && |d| == |d'| == end + HEADER
    && forall b :: LiveBlock(l, end, b) && b.at + HEADER <= b.next <= end ==> Payload(d', b) == Payload(d, b)
  }

  /** Writing a header of the chain touches no live payload. */
  lemma HeaderKeeps(d: seq<Byte>, d': seq<Byte>, l: Chain, end: nat, j: nat)
    requires Placed(l, end) && j <= |l| && |d| == end + HEADER && OnlyHeader(d, d', Edge(l, j, end))
    ensures Kept(d, d', l, end)
  {
    forall b | LiveBlock(l, end, b) && b.at + HEADER <= b.next <= end ensures Payload(d', b) == Payload(d, b) {
      var i :| 0 <= i < |l| && l[i].used && BlockAt(l, i, end) == b;
      forall x | b.at + HEADER <= x < b.next ensures d'[x] == d[x] {
        PayloadsDisjoint(l, end, i, if j < |l| then j else i, x);
      }
    }
  }

  lemma KeptTwice(d: seq<Byte>, d1: seq<Byte>, d2: seq<Byte>, l: Chain, end: nat)
    requires Kept(d, d1, l, end) && Kept(d1, d2, l, end)
    ensures Kept(d, d2, l, end)
  {
    hide Payload, LiveBlock;
  }

  // ---------------------------------------------------------------- what each operation does

  /** The chain, lfree and used_mem */
  datatype State = State(chain: Chain, lfree: nat, used: int)

  ghost predicate StateOk(s: State, end: nat) {
    Canonical(s.chain, end) && HintOk(s.chain, end, s.lfree) && s.used == UsedBytes(s.chain, end)
  }

  /** The scan of rt_malloc for n bytes, from the hint, in a heap of `size` bytes. */
  function Found(s: State, size: nat, n: nat): (k: nat)
    requires n <= size
    ensures k <= |s.chain|
  {
    Scan(s.chain, Find(s.chain, s.lfree), size + HEADER, size - n, n)
  }

  /** rt_malloc out of block k */
  function Grant(s: State, size: nat, n: nat, k: nat): State
    requires k < |s.chain|
  {
    var t := Taken(s.chain, k, size + HEADER, n);
    TakenSize(s.chain, k, size + HEADER, n);
    State(t, TakenHint(s.chain, k, size + HEADER, n, s.lfree), s.used + Edge(t, k + 1, size + HEADER) - t[k].at)
  }

  lemma TakenSize(l: Chain, k: nat, end: nat, n: nat)
    requires k < |l|
    ensures |Taken(l, k, end, n)| > k && Taken(l, k, end, n)[k] == Cell(l[k].at, true)
    ensures Edge(Taken(l, k, end, n), k + 1, end) == if Splits(l, k, end, n) then l[k].at + HEADER + n else Edge(l, k + 1, end)
  {
  }

  /** The request passes the checks at the start of rt_malloc. */
  predicate Serviceable(size: nat, request: nat) {
    request > 0 && Aligned(request) <= size
  }

  lemma FitFits(size: nat, request: nat)
    requires Serviceable(size, request) && size >= MIN_SIZE
    ensures Fit(request) <= size
  {
  }

  /** rt_malloc, in a heap large enough for its scan to end */
  function Malloced(s: State, size: nat, request: nat): (State, Option<int>)
    requires size >= MIN_SIZE
  {
    if !Serviceable(size, request) then (s, None)
    else
      FitFits(size, request);
      var n := Fit(request);
      var k := Found(s, size, n);
      if k == |s.chain| then (s, None) else (Grant(s, size, n, k), Some(s.chain[k].at + HEADER))
  }

  /** rt_free of block i */
  function Freed(s: State, size: nat, i: nat): State
    requires i < |s.chain|
  {
    State(Released(s.chain, i), ReleasedHint(s.chain, i, s.lfree),
          s.used - (Edge(s.chain, i + 1, size + HEADER) - s.chain[i].at))
  }

  /** rt_realloc of block i down to n bytes */
  function CutDown(s: State, size: nat, i: nat, n: nat): State
    requires i < |s.chain|
  {
    State(Shrunk(s.chain, i, n), PluggedHint(Cut(s.chain, i, n), i + 1, s.lfree),
          s.used - (Room(s.chain, i, size + HEADER) - n))
  }

  lemma FoundFits(s: State, size: nat, n: nat)
    requires StateOk(s, size + HEADER) && n <= size
    ensures var k := Found(s, size, n); k < |s.chain| ==> Fits(s.chain, k, size + HEADER, n) && s.chain[k].at < size - n
  {
    ScanExact(s.chain, Find(s.chain, s.lfree), size + HEADER, size - n, n);
  }

  /** Allocation keeps the heap well formed; from a lowest hint it also keeps the hint lowest and takes
      the block that a scan of the whole heap under the same loop bound would take. */
  lemma MallocedOk(s: State, size: nat, request: nat)
    requires StateOk(s, size + HEADER) && size >= MIN_SIZE
    ensures StateOk(Malloced(s, size, request).0, size + HEADER)
    ensures HintLowest(s.chain, size + HEADER, s.lfree) ==>
              && HintLowest(Malloced(s, size, request).0.chain, size + HEADER, Malloced(s, size, request).0.lfree)
              && (Serviceable(size, request) && Fit(request) <= size ==>
                    Found(s, size, Fit(request)) == Scan(s.chain, 0, size + HEADER, size - Fit(request), Fit(request)))
  {
    var end := size + HEADER;
    hide Canonical, Taken, HintLowest, HintOk, UsedBytes, Scan, TakenHint;
    if Serviceable(size, request) {
      FitFits(size, request);
      var n := Fit(request);
      FoundFits(s, size, n);
      FindHint(s.chain, end, s.lfree);
      if HintLowest(s.chain, end, s.lfree) {
        HintFaithful(s.chain, 0, Find(s.chain, s.lfree), end, size - n, n);
      }
      var k := Found(s, size, n);
      if k < |s.chain| {
        TakenCanonical(s.chain, end, k, n);
        TakenHintOk(s.chain, k, end, n, s.lfree);
        UsedTaken(s.chain, k, end, n);
        TakenSize(s.chain, k, end, n);
        if HintLowest(s.chain, end, s.lfree) {
          TakenHintLowest(s.chain, k, end, n, s.lfree);
        }
      }
    }
  }

  /** Block j can be handed out for n bytes: it is free and long enough, and does not begin in the last n bytes. */
  ghost predicate Eligible(l: Chain, size: nat, n: nat, j: nat) {
    j < |l| && !l[j].used && l[j].at + HEADER + n <= Edge(l, j + 1, size + HEADER) && l[j].at + n < size
  }

  /** What a caller of rt_malloc sees when lfree is the lowest free block: the lowest eligible block serves the
      request, cut to the rounded size if the rest can hold a block; without one nothing happens. */
  lemma MallocMeans(s: State, size: nat, request: nat, n: nat)
    requires StateOk(s, size + HEADER) && size >= MIN_SIZE && HintLowest(s.chain, size + HEADER, s.lfree)
    requires request > 0 && Rounded(request, n)
    ensures var (s', r) := Malloced(s, size, request);
            && (r == None <==> forall j: nat :: !Eligible(s.chain, size, n, j)) && (r == None ==> s' == s)
            && forall j: nat :: Lowest(s.chain, size, n, j) ==>
                 r == Some(s.chain[j].at + HEADER) && ServedFrom(s.chain, s'.chain, size + HEADER, j, n)
  {
    hide Rounded, Canonical, HintOk, UsedBytes, HintLowest, ServedFrom, Malloced, Grant, Scan, Edge, Fit;
    FitExact(request, n);
    MallocedForm(s, size, request, n);
    if n <= size {
      ScanFirst(s.chain, size, n);
      var k := Scan(s.chain, 0, size + HEADER, size - n, n);
      if k < |s.chain| {
        GrantServes(s, size, n, k);
        LowestOnce(s.chain, size, n, k);
      }
    } else {
      NoneEligible(s.chain, size, n);
    }
    hide *;
  }

  lemma NoneEligible(l: Chain, size: nat, n: nat)
    requires n > size
    ensures forall j: nat :: !Eligible(l, size, n, j) && !Lowest(l, size, n, j)
  {
  }

  lemma MallocedForm(s: State, size: nat, request: nat, n: nat)
    requires StateOk(s, size + HEADER) && size >= MIN_SIZE && HintLowest(s.chain, size + HEADER, s.lfree)
    requires request > 0 && n == Fit(request)
    ensures n > size ==> Malloced(s, size, request) == (s, None)
    ensures n <= size ==>
              var k := Scan(s.chain, 0, size + HEADER, size - n, n);
              Malloced(s, size, request) == if k == |s.chain| then (s, None) else (Grant(s, size, n, k), Some(s.chain[k].at + HEADER))
  {
    hide Canonical, HintOk, UsedBytes, Scan, Find, HintLowest, Grant;
    if n <= size {
      FindHint(s.chain, size + HEADER, s.lfree);
      HintFaithful(s.chain, 0, Find(s.chain, s.lfree), size + HEADER, size - n, n);
    }
  }

  lemma LowestOnce(l: Chain, size: nat, n: nat, k: nat)
    requires Lowest(l, size, n, k)
    ensures forall j: nat :: Lowest(l, size, n, j) ==> j == k
  {
    hide Eligible;
  }

  ghost predicate Lowest(l: Chain, size: nat, n: nat, j: nat) {
    Eligible(l, size, n, j) && forall h :: 0 <= h < j ==> !Eligible(l, size, n, h)
  }

  /** Exactly one block becomes live, block j: n bytes if the rest can hold a block, and otherwise all of it. */
  ghost predicate ServedFrom(l: Chain, m: Chain, end: nat, j: nat, n: nat)
    requires j < |l|
  {
    var next := Edge(l, j + 1, end);
    var got := Block(l[j].at, if next >= l[j].at + HEADER + n + HEADER + MIN_SIZE then l[j].at + HEADER + n else next);
    forall b :: LiveBlock(m, end, b) <==> b == got || LiveBlock(l, end, b)
  }

  lemma ScanFirst(l: Chain, size: nat, n: nat)
    requires Canonical(l, size + HEADER) && n <= size
    ensures var k := Scan(l, 0, size + HEADER, size - n, n);
            && (k == |l| ==> forall j: nat :: !Eligible(l, size, n, j) && !Lowest(l, size, n, j))
            && (k < |l| ==> Lowest(l, size, n, k))
  {
    ScanExact(l, 0, size + HEADER, size - n, n);
    hide Canonical, Scan;
  }

  lemma GrantServes(s: State, size: nat, n: nat, k: nat)
    requires StateOk(s, size + HEADER) && k < |s.chain| && !s.chain[k].used
    ensures ServedFrom(s.chain, Grant(s, size, n, k).chain, size + HEADER, k, n)
  {
    hide Canonical, Taken, HintOk, UsedBytes, TakenHint, LiveBlock;
    TakenSize(s.chain, k, size + HEADER, n);
    forall b {
      TakenLive(s.chain, k, size + HEADER, n, b);
    }
  }

  lemma FreedOk(s: State, size: nat, i: nat)
    requires StateOk(s, size + HEADER) && i < |s.chain| && s.chain[i].used
    ensures StateOk(Freed(s, size, i), size + HEADER)
    ensures HintLowest(s.chain, size + HEADER, s.lfree) ==>
              HintLowest(Freed(s, size, i).chain, size + HEADER, Freed(s, size, i).lfree)
  {
    var end := size + HEADER;
    hide Canonical, Released, HintLowest, HintOk, UsedBytes, ReleasedHint;
    ReleasedCanonical(s.chain, end, i);
    ReleasedHintOk(s.chain, i, end, s.lfree);
    UsedReleased(s.chain, i, end);
    if HintLowest(s.chain, end, s.lfree) {
      ReleasedHintLowest(s.chain, i, end, s.lfree);
    }
  }

  lemma CutDownOk(s: State, size: nat, i: nat, n: nat)
    requires StateOk(s, size + HEADER) && i < |s.chain| && s.chain[i].used
    requires n % ALIGN == 0 && Room(s.chain, i, size + HEADER) >= n + HEADER
    ensures StateOk(CutDown(s, size, i, n), size + HEADER)
  {
    var end := size + HEADER;
    hide Canonical, Shrunk, HintOk, UsedBytes, PluggedHint;
    ShrunkCanonical(s.chain, end, i, n);
    ShrunkHintOk(s.chain, i, end, n, s.lfree);
    UsedShrunk(s.chain, i, end, n);
  }

  /** RT_ALIGN_DOWN */
  function AlignedDown(n: nat): nat {
    n / ALIGN * ALIGN
  }

  // ---------------------------------------------------------------- runs

  /** What is done to the heap; blocks are named by their header's index in the chain.  A realloc is a
      Shrink, or a Malloc followed by a Free. */
  datatype Call = Malloc(request: nat) | Free(block: nat) | Shrink(block: nat, bytes: nat)

  ghost predicate Allowed(s: State, size: nat, c: Call) {
    match c
    case Malloc(_) => true
    case Free(i) => i < |s.chain| && s.chain[i].used
    case Shrink(i, n) =>
      i < |s.chain| && s.chain[i].used && n > 0 && n % ALIGN == 0 && n + HEADER + MIN_SIZE < Room(s.chain, i, size + HEADER)
  }

  ghost function After(s: State, size: nat, c: Call): State
    requires size >= MIN_SIZE && Allowed(s, size, c)
  {
    match c
    case Malloc(r) => Malloced(s, size, r).0
    case Free(i) => Freed(s, size, i)
    case Shrink(i, n) => CutDown(s, size, i, n)
  }

  /** s' is reached from s by the calls. */
  ghost predicate Run(s: State, size: nat, calls: seq<Call>, s': State)
    requires size >= MIN_SIZE
    decreases |calls|
  {
    if calls == [] then s' == s
    else Allowed(s, size, calls[0]) && Run(After(s, size, calls[0]), size, calls[1..], s')
  }

  /** rt_system_heap_init: one free block, lowest */
  function Fresh(): State {
    State([Cell(0, false)], 0, 0)
  }

  lemma FreshOk(size: nat)
    requires size % ALIGN == 0
    ensures StateOk(Fresh(), size + HEADER) && HintLowest(Fresh().chain, size + HEADER, Fresh().lfree)
  {
    assert Fresh().chain[0] == Cell(0, false);
    assert FirstFree(Fresh().chain, 0, size + HEADER) == 0;
  }

  /** Over every run of malloc, free and realloc the heap stays well formed. */
  lemma {:induction false} RunKeepsHeap(s: State, size: nat, calls: seq<Call>, s': State)
    requires size >= MIN_SIZE && StateOk(s, size + HEADER) && Run(s, size, calls, s')
    ensures StateOk(s', size + HEADER)
    decreases |calls|
  {
    hide StateOk, Malloced, Freed, CutDown;
    if calls != [] {
      match calls[0] {
        case Malloc(r) => MallocedOk(s, size, r);
        case Free(i) => FreedOk(s, size, i);
        case Shrink(i, n) => CutDownOk(s, size, i, n);
      }
      RunKeepsHeap(After(s, size, calls[0]), size, calls[1..], s');
    }
  }

  /** Over every run of malloc and free, without a realloc that shrinks, lfree is the lowest free block. */
  lemma {:induction false} RunKeepsHint(s: State, size: nat, calls: seq<Call>, s': State)
    requires size >= MIN_SIZE && StateOk(s, size + HEADER) && HintLowest(s.chain, size + HEADER, s.lfree)
    requires Run(s, size, calls, s') && forall i :: 0 <= i < |calls| ==> !calls[i].Shrink?
    ensures HintLowest(s'.chain, size + HEADER, s'.lfree)
    decreases |calls|
  {
    hide StateOk, HintLowest, Malloced, Freed, CutDown;
    if calls != [] {
      match calls[0] {
        case Malloc(r) => MallocedOk(s, size, r);
        case Free(i) => FreedOk(s, size, i);
        case Shrink(i, n) => assert false;
      }
      RunKeepsHint(After(s, size, calls[0]), size, calls[1..], s');
    }
  }

  /** A run that ends with the hint too high: of two blocks just allocated the first is shrunk, and lfree stays
      behind the second. */
  lemma ShrinkLosesHint()
    ensures var s := State([Cell(0, true), Cell(32, false), Cell(112, true), Cell(224, false)], 224, 144);
            Run(Fresh(), 400, [Malloc(100), Malloc(100), Shrink(0, 20)], s) && !HintLowest(s.chain, 400 + HEADER, s.lfree)
  {
    var s1 := State([Cell(0, true), Cell(112, false)], 112, 112);
    var s2 := State([Cell(0, true), Cell(112, true), Cell(224, false)], 224, 224);
    var s3 := State([Cell(0, true), Cell(32, false), Cell(112, true), Cell(224, false)], 224, 144);
    FirstMalloc(s1);
    SecondMalloc(s1, s2);
    ShrinkFirst(s2, s3);
    hide Malloced, CutDown;
    var c := Shrink(0, 20);
    assert Run(s2, 400, [c], s3);
    assert [Malloc(100), c][1..] == [c];
    assert [Malloc(100), Malloc(100), c][1..] == [Malloc(100), c];
    assert FirstFree(s3.chain, 1, 412) == 32;
  }

  lemma FirstMalloc(s1: State)
    requires s1 == State([Cell(0, true), Cell(112, false)], 112, 112)
    ensures Malloced(Fresh(), 400, 100).0 == s1
  {
    assert Found(Fresh(), 400, 100) == 0;
    assert Taken([Cell(0, false)], 0, 412, 100) == s1.chain;
    assert FirstFree(s1.chain, 1, 412) == 112;
  }

  lemma SecondMalloc(s1: State, s2: State)
    requires s1 == State([Cell(0, true), Cell(112, false)], 112, 112)
    requires s2 == State([Cell(0, true), Cell(112, true), Cell(224, false)], 224, 224)
    ensures Malloced(s1, 400, 100).0 == s2
  {
    assert Find(s1.chain, 112) == 1;
    assert Found(s1, 400, 100) == 1;
    assert Taken(s1.chain, 1, 412, 100) == s2.chain;
    assert FirstFree(s2.chain, 2, 412) == 224;
  }

  lemma ShrinkFirst(s2: State, s3: State)
    requires s2 == State([Cell(0, true), Cell(112, true), Cell(224, false)], 224, 224)
    requires s3 == State([Cell(0, true), Cell(32, false), Cell(112, true), Cell(224, false)], 224, 144)
    ensures CutDown(s2, 400, 0, 20) == s3
  {
    assert Cut(s2.chain, 0, 20) == s3.chain;
  }

  // ---------------------------------------------------------------- the heap

  class Heap {
    /** mem_size_aligned */
    const size: nat
    var heads: Headers
    var lfree: nat
    var usedMem: int
    var maxMem: int
    /** The bytes of the heap; those of headers mean nothing here. */
    var data: seq<Byte>
    ghost var chain: Chain

    function End(): nat {
      size + HEADER
    }

    ghost function Abs(): State
      reads this`chain, this`lfree, this`usedMem
    {
      State(chain, lfree, usedMem)
    }

    ghost predicate Valid()
      reads this
    {
      && size % ALIGN == 0 && StateOk(Abs(), End()) && HeadsOk(heads, chain, End())
      && usedMem <= maxMem && |data| == End() + HEADER
    }

    /** rt_system_heap_init, of a memory region it accepts; offsets count from its aligned start. */
    constructor (begin: nat, end: nat)
      requires AlignedDown(end) >= Aligned(begin) + 2 * HEADER
      ensures Valid() && size == AlignedDown(end) - Aligned(begin) - 2 * HEADER && Abs() == Fresh()
      ensures HintLowest(chain, End(), lfree)
    {
      size := AlignedDown(end) - Aligned(begin) - 2 * HEADER;
      heads := map[0 := Header(MAGIC, false, AlignedDown(end) - Aligned(begin) - 2 * HEADER + HEADER, 0),
                   AlignedDown(end) - Aligned(begin) - 2 * HEADER + HEADER :=
                     Header(MAGIC, true, AlignedDown(end) - Aligned(begin) - HEADER, AlignedDown(end) - Aligned(begin) - HEADER)];
      lfree, usedMem, maxMem := 0, 0, 0;
      data := seq(AlignedDown(end) - Aligned(begin), _ => 0);
      chain := [Cell(0, false)];
      new;
      FreshOk(size);
      assert Held(heads, chain, 0, End());
    }

    /** Writing a header: its bytes take some new values, all others stay. */
    method Put(at: nat, h: Header)
      requires at + HEADER <= |data|
      modifies this`heads, this`data
      ensures heads == old(heads)[at := h] && OnlyHeader(old(data), data, at)
    {
      heads := heads[at := h];
      assert OnlyHeader(data, data, at);
      var d :| OnlyHeader(data, d, at);
      data := d;
    }

    /** A header write that touches no payload that is live in l. */
    method PutKeeping(at: nat, h: Header, ghost l: Chain, ghost j: nat, ghost d: seq<Byte>)
      requires Placed(l, End()) && j <= |l| && at == Edge(l, j, End()) && |data| == End() + HEADER && Kept(d, data, l, End())
      modifies this`heads, this`data
      ensures heads == old(heads)[at := h] && |data| == End() + HEADER && Kept(d, data, l, End())
    {
      hide Kept;
      PlacedStrict(l, End());
      Put(at, h);
      HeaderKeeps(old(data), data, l, End(), j);
      KeptTwice(d, old(data), data, l, End());
    }

    // -------------------------------------------------------------- plug_holes

    /** Plugging forward: block i swallows a free block behind it. */
    method PlugForward(mem: nat, ghost i: nat, ghost l: Chain, ghost d: seq<Byte>)
      requires Placed(l, End()) && HeadsOk(heads, l, End()) && i < |l| && l[i] == Cell(mem, false)
      requires |data| == End() + HEADER && Kept(d, data, l, End())
      modifies this`heads, this`data, this`lfree
      ensures HeadsOk(heads, Forward(l, i), End()) && |data| == End() + HEADER && Kept(d, data, l, End())
      ensures lfree == if i + 1 < |l| && !l[i + 1].used && old(lfree) == l[i + 1].at then mem else old(lfree)
    {
      hide Kept, Placed, Strict, HeadsOk, RemoveAt;
      PlacedStrict(l, End());
      StrictEdges(l, End(), i);
      HeadAt(heads, l, i, End());
      HeadAt(heads, l, i + 1, End());
      var n := heads[mem].next;
      if mem != n && !heads[n].used && n != End() {
        HeadsRemove(heads, l, i + 1, End());
        if lfree == n {
          lfree := mem;
        }
        PutKeeping(mem, heads[mem].(next := heads[n].next), l, i, d);
        var next := heads[n].next;
        PutKeeping(next, heads[next].(prev := mem), l, i + 2, d);
      }
    }

    /** Plugging backward: a free block before block i swallows it. */
    method PlugBackward(mem: nat, ghost i: nat, ghost l: Chain, ghost l0: Chain, ghost j: nat, ghost d: seq<Byte>)
      requires Placed(l, End()) && HeadsOk(heads, l, End()) && i < |l| && l[i] == Cell(mem, false)
      requires Placed(l0, End()) && |data| == End() + HEADER && Kept(d, data, l0, End())
      requires i < |l0| && l0[..i + 1] == l[..i + 1] && j <= |l0| && Edge(l0, j, End()) == Edge(l, i + 1, End())
      modifies this`heads, this`data, this`lfree
      ensures HeadsOk(heads, Backward(l, i), End()) && |data| == End() + HEADER && Kept(d, data, l0, End())
      ensures lfree == if i > 0 && !l[i - 1].used && old(lfree) == mem then l[i - 1].at else old(lfree)
    {
      hide Kept, Placed, Strict, HeadsOk, RemoveAt;
      PlacedStrict(l, End());
      StrictEdges(l, End(), i);
      HeadAt(heads, l, i, End());
      FirstAtZero(l, End());
      var p := heads[mem].prev;
      if i > 0 {
        HeadAt(heads, l, i - 1, End());
        StrictEdges(l, End(), i - 1);
        assert l0[i - 1] == l0[..i + 1][i - 1] == l[i - 1];
      }
      if p != mem && !heads[p].used {
        HeadsRemove(heads, l, i, End());
        if lfree == mem {
          lfree := p;
        }
        PutKeeping(p, heads[p].(next := heads[mem].next), l0, i - 1, d);
        var next := heads[mem].next;
        PutKeeping(next, heads[next].(prev := p), l0, j, d);
      }
    }

    static lemma FirstAtZero(l: Chain, end: nat)
      requires Placed(l, end)
      ensures l != [] && l[0].at == 0
    {
    }

    /** plug_holes of block i */
    method PlugHoles(mem: nat, ghost i: nat)
      requires Placed(chain, End()) && HeadsOk(heads, chain, End()) && i < |chain| && chain[i] == Cell(mem, false)
      requires |data| == End() + HEADER
      modifies this`heads, this`data, this`lfree, this`chain
      ensures chain == Plugged(old(chain), i) && HeadsOk(heads, chain, End())
      ensures lfree == PluggedHint(old(chain), i, old(lfree))
      ensures |data| == End() + HEADER && Kept(old(data), data, old(chain), End())
    {
      hide Kept, Strict, HeadsOk, RemoveAt, Sized;
      ghost var l, d := chain, data;
      KeptSelf(d, l, End());
      ForwardFacts(l, i, End());
      PlugForward(mem, i, l, d);
      ghost var f := Forward(l, i);
      PlugBackward(mem, i, f, l, if f == l then i + 1 else i + 2, d);
      chain := Plugged(l, i);
    }

    static lemma KeptSelf(d: seq<Byte>, l: Chain, end: nat)
      requires |d| == end + HEADER
      ensures Kept(d, d, l, end)
    {
    }

    static lemma ForwardFacts(l: Chain, i: nat, end: nat)
      requires Placed(l, end) && i < |l| && !l[i].used
      ensures var f := Forward(l, i);
              && Placed(f, end) && i < |f| && f[..i + 1] == l[..i + 1] && f[i] == l[i]
              && (f != l ==> i + 1 < |l| && Edge(f, i + 1, end) == Edge(l, i + 2, end))
    {
      if i + 1 < |l| && !l[i + 1].used {
        RemovePlaced(l, end, i + 1);
        RemoveAtAt(l, i + 1);
      }
    }

    // -------------------------------------------------------------- rt_free

    /** A pointer a caller may pass: null, a live payload, or any address outside the heap. */
    ghost predicate Pointer(p: Option<int>)
      reads this`chain
    {
      p.Some? && 0 <= p.value < End() ==> IsLive(p.value)
    }

    /** p is what an allocation returned for a block that is still live. */
    ghost predicate IsLive(p: int)
      reads this`chain
    {
      p >= HEADER && Find(chain, p - HEADER) < |chain| && chain[Find(chain, p - HEADER)].used
    }

    /** The block of a live pointer. */
    ghost function BlockOf(p: int): nat
      requires IsLive(p)
      reads this`chain
    {
      Find(chain, p - HEADER)
    }

    /** rt_free.  Live payloads other than the released one keep their bytes. */
    method Free(rmem: Option<int>)
      requires Valid() && Pointer(rmem)
      modifies this
      ensures Valid() && maxMem == old(maxMem)
      ensures rmem.None? || !(0 <= rmem.value < End()) ==> Abs() == old(Abs()) && data == old(data)
      ensures rmem.Some? && 0 <= rmem.value < End() ==>
                Abs() == Freed(old(Abs()), size, old(BlockOf(rmem.value))) && Kept(old(data), data, chain, End())
    {
      if rmem.None? {
        return;
      }
      if rmem.value < 0 || rmem.value >= End() {
        return;
      }
      Release(rmem.value);
    }

    method Release(p: int)
      requires Valid() && 0 <= p < End() && IsLive(p)
      modifies this
      ensures Valid() && maxMem == old(maxMem)
      ensures Abs() == Freed(old(Abs()), size, old(BlockOf(p))) && Kept(old(data), data, chain, End())
    {
      hide Kept, HeadsOk, Canonical, Plugged, PluggedHint, HintOk, UsedBytes;
      ghost var s, i, d := Abs(), BlockOf(p), data;
      FreedOk(s, size, i);
      var mem: nat := p - HEADER;
      ReleaseFacts(heads, chain, i, End(), d);
      PutKeeping(mem, heads[mem].(used := false, magic := MAGIC), chain, i, d);
      chain := Mark(chain, i, false);
      if mem < lfree {
        lfree := mem;
      }
      usedMem := usedMem - (heads[mem].next - mem);
      ghost var d1 := data;
      PlugHoles(mem, i);
      ReleaseKept(s.chain, i, End(), d, d1, data);
    }

    static lemma ReleaseFacts(heads: Headers, l: Chain, i: nat, end: nat, d: seq<Byte>)
      requires Canonical(l, end) && HeadsOk(heads, l, end) && i < |l| && |d| == end + HEADER
      ensures l[i].at in heads && heads[l[i].at].next == Edge(l, i + 1, end) && l[i].at <= Edge(l, i + 1, end)
      ensures Placed(l, end) && Placed(Mark(l, i, false), end) && Kept(d, d, l, end)
      ensures HeadsOk(heads[l[i].at := heads[l[i].at].(used := false, magic := MAGIC)], Mark(l, i, false), end)
    {
      HeadAt(heads, l, i, end);
      HeadsMark(heads, l, i, end, false);
      PlacedStrict(l, end);
      StrictEdges(l, end, i);
      forall k | 0 <= k < |l| ensures Sized(Mark(l, i, false), k, end) {
        assert Sized(l, k, end);
      }
    }

    /** What is live after the release was live before it and at every step between. */
    static lemma ReleaseKept(l: Chain, i: nat, end: nat, d: seq<Byte>, d1: seq<Byte>, d2: seq<Byte>)
      requires Canonical(l, end) && i < |l| && l[i].used
      requires Kept(d, d1, l, end) && Kept(d1, d2, Mark(l, i, false), end)
      ensures Kept(d, d2, Released(l, i), end)
    {
      hide LiveBlock, Payload, Released, Mark, Canonical;
      forall b | LiveBlock(Released(l, i), end, b) && b.at + HEADER <= b.next <= end ensures Payload(d2, b) == Payload(d, b) {
        ReleasedLive(l, i, end, b);
        MarkLive(l, i, end, false, b);
      }
    }

    // -------------------------------------------------------------- rt_malloc

    /** rt_malloc.  In a heap smaller than MIN_SIZE_ALIGNED a request that fits it is excluded: there the
        scan does not end. */
    method Malloc(request: nat) returns (r: Option<int>)
      requires Valid() && (Serviceable(size, request) ==> size >= MIN_SIZE)
      modifies this
      ensures Valid() && maxMem >= old(maxMem) && Kept(old(data), data, old(chain), End())
      ensures !Serviceable(size, request) ==> r == None && Abs() == old(Abs()) && maxMem == old(maxMem)
      ensures size >= MIN_SIZE ==> (Abs(), r) == Malloced(old(Abs()), size, request)
    {
      hide Kept, HeadsOk, Canonical, HintOk, UsedBytes, Scan, Grant;
      KeptSelf(data, chain, End());
      if request == 0 {
        return None;
      }
      var n := Aligned(request);
      if n > size {
        return None;
      }
      if n < MIN_SIZE {
        n := MIN_SIZE;
      }
      FitFits(size, request);
      FindHint(chain, End(), lfree);
      ghost var s := Abs();
      ghost var k := Find(chain, lfree);
      var ptr := lfree;
      while ptr < size - n
        invariant Valid() && Abs() == s && data == old(data) && maxMem == old(maxMem)
        invariant k <= |chain| && ptr == Edge(chain, k, End())
        invariant Scan(chain, k, End(), size - n, n) == Found(s, size, n)
        decreases |chain| - k
      {
        ScanStep(chain, k, End(), size - n, n);
        HeadAt(heads, chain, k, End());
        if !heads[ptr].used && heads[ptr].next - (ptr + HEADER) >= n {
          TakeBlock(ptr, n, k);
          return Some(ptr + HEADER);
        }
        ptr := heads[ptr].next;
        k := k + 1;
      }
      ScanStep(chain, k, End(), size - n, n);
      r := None;
    }

    static lemma ScanStep(l: Chain, k: nat, end: nat, bound: nat, n: nat)
      requires k <= |l| && bound <= end
      ensures Edge(l, k, end) >= bound ==> Scan(l, k, end, bound, n) == |l|
      ensures Edge(l, k, end) < bound ==> k < |l| && Scan(l, k, end, bound, n) == if Fits(l, k, end, n) then k else Scan(l, k + 1, end, bound, n)
    {
    }

    /** The rest of rt_malloc, once a block that fits is found. */
    method TakeBlock(ptr: nat, n: nat, ghost k: nat)
      requires Valid() && k < |chain| && chain[k] == Cell(ptr, false) && Fits(chain, k, End(), n) && n % ALIGN == 0
      modifies this
      ensures Valid() && maxMem >= old(maxMem) && Kept(old(data), data, old(chain), End())
      ensures Abs() == Grant(old(Abs()), size, n, k)
    {
      hide Kept, HeadsOk, Canonical, HintOk, UsedBytes, InsertAt;
      ghost var s, d := Abs(), data;
      GrantOk(s, size, n, k);
      TakenSize(chain, k, End(), n);
      HeadAt(heads, chain, k, End());
      var next := heads[ptr].next;
      if next - (ptr + HEADER) >= n + HEADER + MIN_SIZE {
        SplitBlock(ptr, n, next, k);
        usedMem := usedMem + (n + HEADER);
      } else {
        MarkBlock(ptr, k);
        HeadAt(heads, chain, k, End());
        usedMem := usedMem + (heads[ptr].next - ptr);
      }
      if maxMem < usedMem {
        maxMem := usedMem;
      }
      if ptr == lfree {
        AdvanceHint(k);
      }
    }

    /** The loop that moves lfree from a taken block to the next free one. */
    method AdvanceHint(ghost k: nat)
      requires Canonical(chain, End()) && HeadsOk(heads, chain, End()) && k < |chain| && lfree == chain[k].at
      modifies this`lfree
      ensures lfree == FirstFree(chain, k, End())
    {
      hide HeadsOk, Canonical;
      ghost var j: nat := k;
      HeadAt(heads, chain, j, End());
      EdgeBelow(chain, End(), j);
      while heads[lfree].used && lfree != End()
        invariant k <= j <= |chain| && lfree == Edge(chain, j, End()) && lfree in heads
        invariant FirstFree(chain, j, End()) == FirstFree(chain, k, End())
        invariant heads[lfree].used <==> j == |chain| || chain[j].used
        invariant heads[lfree].next == Edge(chain, if j < |chain| then j + 1 else j, End())
        invariant j < |chain| ==> lfree != End()
        decreases |chain| - j
      {
        lfree := heads[lfree].next;
        j := j + 1;
        HeadAt(heads, chain, j, End());
        EdgeBelow(chain, End(), j);
      }
    }

    static lemma EdgeBelow(l: Chain, end: nat, j: nat)
      requires Canonical(l, end) && j <= |l|
      ensures j < |l| ==> Edge(l, j, end) != end
    {
      PlacedStrict(l, end);
    }

    static lemma GrantOk(s: State, size: nat, n: nat, k: nat)
      requires StateOk(s, size + HEADER) && k < |s.chain| && Fits(s.chain, k, size + HEADER, n) && n % ALIGN == 0
      ensures StateOk(Grant(s, size, n, k), size + HEADER)
    {
      hide Canonical, Taken, HintOk, UsedBytes, TakenHint;
      var end := size + HEADER;
      TakenCanonical(s.chain, end, k, n);
      TakenHintOk(s.chain, k, end, n, s.lfree);
      UsedTaken(s.chain, k, end, n);
      TakenSize(s.chain, k, end, n);
    }

    /** rt_malloc taking block k whole. */
    method MarkBlock(ptr: nat, ghost k: nat)
      requires Valid() && k < |chain| && chain[k] == Cell(ptr, false)
      modifies this`heads, this`data, this`chain
      ensures chain == Mark(old(chain), k, true) && HeadsOk(heads, chain, End())
      ensures |data| == End() + HEADER && Kept(old(data), data, old(chain), End())
    {
      hide Kept, HeadsOk, HintOk, UsedBytes;
      KeptSelf(data, chain, End());
      HeadsMark(heads, chain, k, End(), true);
      PutKeeping(ptr, heads[ptr].(used := true, magic := MAGIC), chain, k, old(data));
      chain := Mark(chain, k, true);
    }

    /** rt_malloc taking the first n bytes of block k and making the rest a block. */
    method SplitBlock(ptr: nat, n: nat, next: nat, ghost k: nat)
      requires Valid() && k < |chain| && chain[k] == Cell(ptr, false) && next == Edge(chain, k + 1, End())
      requires Splits(chain, k, End(), n) && n % ALIGN == 0
      modifies this`heads, this`data, this`chain
      ensures chain == Cut(Mark(old(chain), k, true), k, n) && HeadsOk(heads, chain, End())
      ensures |data| == End() + HEADER && Kept(old(data), data, old(chain), End())
    {
      hide Kept, HeadsOk, HintOk, UsedBytes, InsertAt;
      ghost var l, d, heads0 := chain, data, heads;
      ghost var t := SplitFacts(heads, l, k, End(), n);
      var ptr2 := ptr + HEADER + n;
      KeptSelf(d, t, End());
      PutKeeping(ptr2, Header(MAGIC, false, next, ptr), t, k + 1, d);
      PutKeeping(ptr, heads[ptr].(next := ptr2), t, k, d);
      PutKeeping(ptr, heads[ptr].(used := true), t, k, d);
      if next != size + HEADER {
        PutKeeping(next, heads[next].(prev := ptr2), t, k + 2, d);
      }
      PutKeeping(ptr, heads[ptr].(magic := MAGIC), t, k, d);
      assert heads == CutHeads(heads0[ptr := heads0[ptr].(used := true, magic := MAGIC)], Mark(l, k, true), k, End(), n);
      chain := t;
      SplitKept(l, k, End(), n, d, data);
    }

    static lemma SplitFacts(heads: Headers, l: Chain, k: nat, end: nat, n: nat) returns (t: Chain)
      requires Canonical(l, end) && HeadsOk(heads, l, end) && k < |l| && !l[k].used && Splits(l, k, end, n) && n % ALIGN == 0
      ensures t == Cut(Mark(l, k, true), k, n) && |t| == |l| + 1 && Placed(t, end)
      ensures t[k].at == l[k].at && t[k + 1].at == l[k].at + HEADER + n && Edge(t, k + 2, end) == Edge(l, k + 1, end)
      ensures l[k].at in heads && Edge(l, k + 1, end) in heads && heads[l[k].at].magic == MAGIC
      ensures l[k].at < l[k].at + HEADER + n < Edge(l, k + 1, end)
      ensures var heads1 := heads[l[k].at := heads[l[k].at].(used := true, magic := MAGIC)];
              && Edge(l, k + 1, end) in heads1 && HeadsOk(CutHeads(heads1, Mark(l, k, true), k, end, n), t, end)
    {
      var m := Mark(l, k, true);
      t := Cut(m, k, n);
      HeadAt(heads, l, k, end);
      HeadAt(heads, l, k + 1, end);
      HeadsMark(heads, l, k, end, true);
      MarkCanonical(l, end, k);
      HeadsCut(heads[l[k].at := heads[l[k].at].(used := true, magic := MAGIC)], m, k, end, n);
      CutPlaced(m, end, k, n);
      InsertAtAt(m, k + 1, Cell(l[k].at + HEADER + n, false));
    }

    /** What is live before a split is live after it, with its bytes. */
    static lemma SplitKept(l: Chain, k: nat, end: nat, n: nat, d: seq<Byte>, d': seq<Byte>)
      requires Canonical(l, end) && k < |l| && !l[k].used && Splits(l, k, end, n)
      requires Kept(d, d', Cut(Mark(l, k, true), k, n), end)
      ensures Kept(d, d', l, end)
    {
      hide LiveBlock, Payload, InsertAt, Canonical;
      forall b | LiveBlock(l, end, b) && b.at + HEADER <= b.next <= end ensures Payload(d', b) == Payload(d, b) {
        TakenLive(l, k, end, n, b);
        assert Taken(l, k, end, n) == Cut(Mark(l, k, true), k, n);
      }
    }

    // -------------------------------------------------------------- rt_realloc

    /** rt_realloc cutting block i down to n bytes in place: the payload keeps its first n bytes. */
    method ShrinkBlock(mem: nat, n: nat, ghost i: nat)
      requires Valid() && i < |chain| && chain[i] == Cell(mem, true)
      requires n % ALIGN == 0 && n + HEADER + MIN_SIZE < Room(chain, i, End())
      modifies this
      ensures Valid() && maxMem == old(maxMem) && Abs() == CutDown(old(Abs()), size, i, n)
      ensures Kept(old(data), data, chain, End())
    {
      hide Kept, HeadsOk, Canonical, HintOk, UsedBytes, InsertAt, Plugged, PluggedHint;
      ghost var s, l, d, heads0 := Abs(), chain, data, heads;
      CutDownOk(s, size, i, n);
      ghost var c := ShrinkFacts(heads, l, i, End(), n);
      KeptSelf(d, c, End());
      var next := heads[mem].next;
      usedMem := usedMem - (next - mem - HEADER - n);
      var ptr2 := mem + HEADER + n;
      PutKeeping(ptr2, Header(MAGIC, false, next, mem), c, i + 1, d);
      PutKeeping(mem, heads[mem].(next := ptr2), c, i, d);
      if next != size + HEADER {
        PutKeeping(next, heads[next].(prev := ptr2), c, i + 2, d);
      }
      assert heads == CutHeads(heads0, l, i, End(), n);
      chain := c;
      ghost var d1 := data;
      PlugHoles(ptr2, i + 1);
      ShrinkKept(c, i + 1, End(), d, d1, data);
    }

    static lemma ShrinkFacts(heads: Headers, l: Chain, i: nat, end: nat, n: nat) returns (c: Chain)
      requires Canonical(l, end) && HeadsOk(heads, l, end) && i < |l| && n % ALIGN == 0 && Room(l, i, end) > n + HEADER
      ensures c == Cut(l, i, n) && |c| == |l| + 1 && Placed(c, end)
      ensures c[i].at == l[i].at && c[i + 1] == Cell(l[i].at + HEADER + n, false) && Edge(c, i + 2, end) == Edge(l, i + 1, end)
      ensures l[i].at in heads && Edge(l, i + 1, end) in heads && heads[l[i].at].next == Edge(l, i + 1, end)
      ensures l[i].at < l[i].at + HEADER + n < Edge(l, i + 1, end)
      ensures HeadsOk(CutHeads(heads, l, i, end, n), c, end)
    {
      c := Cut(l, i, n);
      HeadAt(heads, l, i, end);
      HeadAt(heads, l, i + 1, end);
      HeadsCut(heads, l, i, end, n);
      CutPlaced(l, end, i, n);
      InsertAtAt(l, i + 1, Cell(l[i].at + HEADER + n, false));
    }

    static lemma ShrinkKept(c: Chain, j: nat, end: nat, d: seq<Byte>, d1: seq<Byte>, d2: seq<Byte>)
      requires j < |c| && !c[j].used && Kept(d, d1, c, end) && Kept(d1, d2, c, end)
      ensures Kept(d, d2, Plugged(c, j), end)
    {
      hide LiveBlock, Payload, Plugged;
      forall b | LiveBlock(Plugged(c, j), end, b) && b.at + HEADER <= b.next <= end ensures Payload(d2, b) == Payload(d, b) {
        PluggedLive(c, j, end, b);
      }
    }

    /** rt_memcpy between two payloads */
    method Copy(dst: nat, src: nat, n: nat)
      requires dst + n <= |data| && src + n <= |data|
      modifies this`data
      ensures |data| == |old(data)| && data[dst..dst + n] == old(data)[src..src + n]
      ensures forall x :: 0 <= x < |data| && !(dst <= x < dst + n) ==> data[x] == old(data)[x]
    {
      data := data[..dst] + data[src..src + n] + data[dst + n..];
    }

    /** The blocks live in both chains keep their bytes. */
    static ghost predicate BothKept(d: seq<Byte>, d': seq<Byte>, l: Chain, l': Chain, end: nat) {
      && |d| == |d'| == end + HEADER
      && forall b :: LiveBlock(l, end, b) && LiveBlock(l', end, b) && b.at + HEADER <= b.next <= end ==>
           Payload(d', b) == Payload(d, b)
    }

    /** rt_realloc by way of a new block: the common part of the contents moves along. */
    method MoveBlock(p: int, n: nat, room: nat, ghost i: nat) returns (r: Option<int>)
      requires Valid() && size >= MIN_SIZE && 0 <= p < End() && IsLive(p) && i == BlockOf(p) && room == Room(chain, i, End())
      requires 0 < n <= size && n % ALIGN == 0
      modifies this
      ensures Valid() && r == Malloced(old(Abs()), size, n).1
      ensures r.None? ==> Abs() == old(Abs()) && Kept(old(data), data, chain, End())
      ensures r.Some? ==>
                var s := Malloced(old(Abs()), size, n).0;
                var m := if room < n then room else n;
                && Find(s.chain, p - HEADER) < |s.chain|
                && Abs() == Freed(s, size, Find(s.chain, p - HEADER))
                && BothKept(old(data), data, old(chain), chain, End())
                && 0 <= r.value && r.value + m <= |data| && p + m <= |data|
                && data[r.value..r.value + m] == old(data)[p..p + m]
                && IsLive(r.value)
    {
      hide Kept, HeadsOk, StateOk, Malloced, BothKept, LiveIn, Freed, Canonical;
      ghost var s0, d0 := Abs(), data;
      r := Malloc(n);
      MallocNone(s0, size, n);
      if r.Some? {
        ghost var k, j := MoveFacts(s0, size, n, i);
        MoveContents(p, r.value, if room < n then room else n, room, s0.chain, i, k, j, d0);
      }
    }

    /** The end of a moving rt_realloc: copying the contents and releasing the old block. */
    method MoveContents(p: int, dst: int, m: nat, room: nat, ghost l: Chain, ghost i: nat, ghost k: nat, ghost j: nat, ghost d0: seq<Byte>)
      requires Valid() && Canonical(l, End()) && Beside(l, chain, End(), i, k, j) && LiveIn(l, chain, End())
      requires p == l[i].at + HEADER && p < End() && dst == chain[k].at + HEADER && room == Room(l, i, End())
      requires m <= room && m <= Room(chain, k, End()) && Kept(d0, data, l, End())
      modifies this
      ensures Valid() && Find(old(chain), p - HEADER) < |old(chain)|
      ensures Abs() == Freed(old(Abs()), size, Find(old(chain), p - HEADER)) && BothKept(d0, data, l, chain, End())
      ensures dst + m <= |data| && p + m <= |d0| && data[dst..dst + m] == d0[p..p + m] && IsLive(dst)
    {
      hide Kept, HeadsOk, Canonical, HintOk, UsedBytes, Released, ReleasedHint, BothKept, LiveIn, LiveBlock;
      ghost var t, d1 := chain, data;
      CopyBounds(t, End(), k, j);
      Copy(dst, p, m);
      ghost var d2 := data;
      Release(p);
      MoveKept(l, t, End(), i, k, j, m, d0, d1, d2, data);
    }

    static lemma CopyBounds(t: Chain, end: nat, k: nat, j: nat)
      requires Canonical(t, end) && k < |t| && j < |t|
      ensures Edge(t, k + 1, end) <= end && Edge(t, j + 1, end) <= end && Find(t, t[j].at) == j
    {
      PlacedStrict(t, end);
      FindAt(t, end, j);
    }

    static ghost predicate LiveIn(l: Chain, t: Chain, end: nat) {
      forall b :: LiveBlock(l, end, b) ==> LiveBlock(t, end, b)
    }

    /** Where the taken block k and a used block i of the chain before are in the chain after. */
    static ghost predicate Beside(l: Chain, t: Chain, end: nat, i: nat, k: nat, j: nat) {
      && i < |l| && k < |l| && !l[k].used && l[i].used && k < |t| && j < |t| && k != j
      && t[k] == Cell(l[k].at, true) && t[j] == l[i] && BlockAt(t, j, end) == BlockAt(l, i, end)
    }

    static lemma TakenBeside(l: Chain, k: nat, end: nat, n: nat, i: nat) returns (j: nat)
      requires k < |l| && i < |l| && !l[k].used && l[i].used
      ensures Beside(l, Taken(l, k, end, n), end, i, k, j)
    {
      j := if i < k || !Splits(l, k, end, n) then i else i + 1;
      var c := Cell(l[k].at + HEADER + n, false);
      InsertAtAt(Mark(l, k, true), k + 1, c);
      hide InsertAt;
    }

    /** What a successful allocation next to block i finds. */
    static lemma MoveFacts(s: State, size: nat, n: nat, i: nat) returns (k: nat, j: nat)
      requires StateOk(s, size + HEADER) && size >= MIN_SIZE && i < |s.chain| && s.chain[i].used
      requires Malloced(s, size, n).1.Some?
      ensures var t, end := Malloced(s, size, n).0.chain, size + HEADER;
              && Canonical(s.chain, end) && Canonical(t, end) && Beside(s.chain, t, end, i, k, j) && LiveIn(s.chain, t, end)
              && Malloced(s, size, n).1.value == t[k].at + HEADER && Room(t, k, end) >= n
    {
      var end := size + HEADER;
      FitFits(size, n);
      k := Found(s, size, Fit(n));
      FoundFits(s, size, Fit(n));
      MallocedOk(s, size, n);
      TakenSize(s.chain, k, end, Fit(n));
      j := TakenBeside(s.chain, k, end, Fit(n), i);
      var t := Taken(s.chain, k, end, Fit(n));
      hide Taken, LiveBlock, Scan, HintOk, UsedBytes, Canonical;
      forall b | LiveBlock(s.chain, end, b) ensures LiveBlock(t, end, b) {
        TakenLive(s.chain, k, end, Fit(n), b);
      }
    }

    /** The move keeps all other payloads, and the new block starts with the old block's bytes. */
    static lemma MoveKept(l: Chain, t: Chain, end: nat, i: nat, k: nat, j: nat, m: nat,
                          d0: seq<Byte>, d1: seq<Byte>, d2: seq<Byte>, d3: seq<Byte>)
      requires Canonical(l, end) && Canonical(t, end) && Beside(l, t, end, i, k, j) && LiveIn(l, t, end)
      requires m <= Room(t, k, end) && m <= Room(t, j, end)
      requires Kept(d0, d1, l, end) && Kept(d2, d3, Released(t, j), end) && |d2| == |d1|
      requires Edge(t, k + 1, end) <= end && Edge(t, j + 1, end) <= end
      requires forall x :: 0 <= x < |d2| && !(t[k].at + HEADER <= x < t[k].at + HEADER + m) ==> d2[x] == d1[x]
      requires d2[t[k].at + HEADER..t[k].at + HEADER + m] == d1[t[j].at + HEADER..t[j].at + HEADER + m]
      ensures BothKept(d0, d3, l, Released(t, j), end) && |d3| == |d0| == end + HEADER
      ensures d3[t[k].at + HEADER..t[k].at + HEADER + m] == d0[t[j].at + HEADER..t[j].at + HEADER + m]
      ensures Find(Released(t, j), t[k].at) < |Released(t, j)| && Released(t, j)[Find(Released(t, j), t[k].at)].used
    {
      hide Canonical, Released, Payload;
      var f, moved, was := Released(t, j), BlockAt(t, k, end), BlockAt(t, j, end);
      forall b | LiveBlock(l, end, b) && LiveBlock(f, end, b) && b.at + HEADER <= b.next <= end
        ensures Payload(d3, b) == Payload(d0, b)
      {
        OtherBlock(l, end, k, b);
        CopyApart(t, end, k, b, m, d1, d2);
      }
      NewBlockLive(t, end, k, j);
      LiveFound(f, end, moved);
      assert LiveBlock(l, end, was);
      SubPayload(d2, d3, moved, m);
      SubPayload(d0, d1, was, m);
    }

    /** A live block starts elsewhere than a free one. */
    static lemma OtherBlock(l: Chain, end: nat, k: nat, b: Block)
      requires Canonical(l, end) && k < |l| && !l[k].used && LiveBlock(l, end, b)
      ensures b.at != l[k].at
    {
      var i :| 0 <= i < |l| && l[i].used && BlockAt(l, i, end) == b;
      if b.at == l[k].at {
        SameHeader(l, end, i, k);
      }
    }

    /** Writing into block k leaves the payloads of other live blocks alone. */
    static lemma CopyApart(t: Chain, end: nat, k: nat, b: Block, m: nat, d1: seq<Byte>, d2: seq<Byte>)
      requires Canonical(t, end) && k < |t| && LiveBlock(t, end, b) && b.at != t[k].at && m <= Room(t, k, end)
      requires |d2| == |d1| == end + HEADER && b.at + HEADER <= b.next <= end
      requires forall x :: 0 <= x < |d2| && !(t[k].at + HEADER <= x < t[k].at + HEADER + m) ==> d2[x] == d1[x]
      ensures Payload(d2, b) == Payload(d1, b)
    {
      var i :| 0 <= i < |t| && t[i].used && BlockAt(t, i, end) == b;
      forall x | b.at + HEADER <= x < b.next ensures d2[x] == d1[x] {
        PayloadsDisjoint(t, end, i, k, x);
      }
    }

    static lemma NewBlockLive(t: Chain, end: nat, k: nat, j: nat)
      requires Canonical(t, end) && k < |t| && j < |t| && k != j && t[k].used && t[j].used
      ensures Canonical(Released(t, j), end) && LiveBlock(Released(t, j), end, BlockAt(t, k, end))
    {
      ReleasedCanonical(t, end, j);
      ReleasedLive(t, j, end, BlockAt(t, k, end));
      if t[k].at == t[j].at {
        SameHeader(t, end, k, j);
      }
    }

    static lemma LiveFound(l: Chain, end: nat, b: Block)
      requires Canonical(l, end) && LiveBlock(l, end, b)
      ensures Find(l, b.at) < |l| && l[Find(l, b.at)].used
    {
      var i :| 0 <= i < |l| && l[i].used && BlockAt(l, i, end) == b;
      FindAt(l, end, i);
    }

    static lemma SubPayload(d: seq<Byte>, d': seq<Byte>, b: Block, m: nat)
      requires |d'| == |d| && b.at + HEADER + m <= b.next <= |d| && Payload(d', b) == Payload(d, b)
      ensures d'[b.at + HEADER..b.at + HEADER + m] == d[b.at + HEADER..b.at + HEADER + m]
    {
      var lo := b.at + HEADER;
      assert d[lo..b.next][..m] == d[lo..lo + m];
      assert d'[lo..b.next][..m] == d'[lo..lo + m];
    }

    static lemma MallocNone(s: State, size: nat, n: nat)
      requires size >= MIN_SIZE
      ensures Malloced(s, size, n).1.None? ==> Malloced(s, size, n).0 == s
    {
    }

    /** rt_realloc of a live payload to a size between 1 and the heap's, rounded up to n. */
    method Resize(p: int, n: nat) returns (r: Option<int>)
      requires Valid() && size >= MIN_SIZE && 0 <= p < End() && IsLive(p) && 0 < n <= size && n % ALIGN == 0
      modifies this
      ensures Valid() && ResizedTo(old(Abs()), old(data), p, n, r)
    {
      hide Kept, HeadsOk, Canonical, HintOk, UsedBytes, Malloced, Released, ReleasedHint, BothKept, CutDown;
      ghost var i := BlockOf(p);
      HeadAt(heads, chain, i, End());
      RoomNat(chain, i, End());
      KeptSelf(data, chain, End());
      var mem: nat := p - HEADER;
      var room := heads[mem].next - mem - HEADER;
      if room == n {
        return Some(p);
      }
      if n + HEADER + MIN_SIZE < room {
        ShrinkBlock(mem, n, i);
        return Some(p);
      }
      r := MoveBlock(p, n, room, i);
    }

    static lemma RoomNat(l: Chain, i: nat, end: nat)
      requires Canonical(l, end) && i < |l|
      ensures Room(l, i, end) >= 0
    {
      assert Sized(l, i, end);
    }

    /** What Resize leaves: the same block when the size fits exactly; the block cut down in place, its
        payload's first n bytes kept; or a new block that starts with the old one's bytes, the old one
        released; or, when there is no room for a new block, everything as it was. */
    ghost predicate ResizedTo(s: State, d: seq<Byte>, p: int, n: nat, r: Option<int>)
      requires size >= MIN_SIZE && p >= HEADER && Find(s.chain, p - HEADER) < |s.chain|
      reads this
    {
      var i := Find(s.chain, p - HEADER);
      var room := Room(s.chain, i, End());
      if room == n then r == Some(p) && Abs() == s && data == d
      else if n + HEADER + MIN_SIZE < room then
        r == Some(p) && Abs() == CutDown(s, size, i, n) && Kept(d, data, chain, End())
      else
        var (s1, r1) := Malloced(s, size, n);
        && r == r1
        && (r.None? ==> Abs() == s && Kept(d, data, chain, End()))
        && (r.Some? ==>
              var m := if room < n then room else n;
              && Find(s1.chain, p - HEADER) < |s1.chain|
              && Abs() == Freed(s1, size, Find(s1.chain, p - HEADER))
              && BothKept(d, data, s.chain, chain, End())
              && 0 <= m && 0 <= r.value && r.value + m <= |data| && p + m <= |d|
              && data[r.value..r.value + m] == d[p..p + m]
              && IsLive(r.value))
    }

    /** A size that leaves room for another block, or fits exactly, is served in place: the block is cut to it, and
        every other block stays.  Otherwise it moves, and the old block is no longer live, or nothing changes. */
    lemma ResizedMeans(s: State, d: seq<Byte>, p: int, n: nat, r: Option<int>)
      requires size >= MIN_SIZE && p >= HEADER && Find(s.chain, p - HEADER) < |s.chain| && s.chain[Find(s.chain, p - HEADER)].used
      requires StateOk(s, End()) && ResizedTo(s, d, p, n, r)
      ensures var next := Edge(s.chain, Find(s.chain, p - HEADER) + 1, End());
              && (p + n + HEADER + MIN_SIZE < next ==>
                    && r == Some(p)
                    && forall b :: LiveBlock(chain, End(), b) <==>
                         b == Block(p - HEADER, p + n) || (LiveBlock(s.chain, End(), b) && b.at != p - HEADER))
              && (p + n == next ==> r == Some(p) && chain == s.chain)
              && (p + n + HEADER + MIN_SIZE >= next && p + n != next && r.None? ==> chain == s.chain)
    {
      hide StateOk, Shrunk, LiveBlock, Kept, BothKept, Malloced, Freed;
      var i := Find(s.chain, p - HEADER);
      assert Canonical(s.chain, End()) by { StateCanonical(s); }
      if p + n + HEADER + MIN_SIZE < Edge(s.chain, i + 1, End()) {
        forall b {
          ShrunkLive(s.chain, i, End(), n, b);
        }
      }
    }

    lemma StateCanonical(s: State)
      requires StateOk(s, End())
      ensures Canonical(s.chain, End())
    {
    }

    /** rt_realloc */
    method Realloc(rmem: Option<int>, request: nat) returns (r: Option<int>)
      requires Valid() && Pointer(rmem) && (0 < Aligned(request) <= size ==> size >= MIN_SIZE)
      modifies this
      ensures Valid()
      ensures Aligned(request) > size ==> r == None && Abs() == old(Abs()) && data == old(data)
      ensures Aligned(request) == 0 ==>
                && r == None && (rmem.None? || !(0 <= rmem.value < End()) ==> Abs() == old(Abs()) && data == old(data))
                && (rmem.Some? && 0 <= rmem.value < End() ==>
                      Abs() == Freed(old(Abs()), size, old(BlockOf(rmem.value))) && Kept(old(data), data, chain, End()))
      ensures 0 < Aligned(request) <= size && rmem.None? ==>
                (Abs(), r) == Malloced(old(Abs()), size, Aligned(request)) && Kept(old(data), data, old(chain), End())
      ensures 0 < Aligned(request) <= size && rmem.Some? && !(0 <= rmem.value < End()) ==>
                r == rmem && Abs() == old(Abs()) && data == old(data)
      ensures 0 < Aligned(request) <= size && rmem.Some? && 0 <= rmem.value < End() ==>
                ResizedTo(old(Abs()), old(data), rmem.value, Aligned(request), r)
    {
      hide Kept, HeadsOk, StateOk, Malloced, Freed, ResizedTo;
      var n := Aligned(request);
      if n > size {
        return None;
      } else if n == 0 {
        Free(rmem);
        return None;
      }
      if rmem.None? {
        r := Malloc(n);
        return;
      }
      if rmem.value < 0 || rmem.value >= End() {
        return rmem;
      }
      r := Resize(rmem.value, n);
    }
  }
}
