/** The state of a slab heap, src/slab.c: zones on their lists, whole zones kept for reuse, large
    allocations, the page descriptors, and the pages each of them owns. */
module SlabHeap {
  import opened Basics
  import opened SlabZones
  import PR = PageRuns

  /** struct memusage */
  datatype Kind = FREE | SMALL | LARGE
  datatype Usage = Usage(kind: Kind, size: nat)

  /** zoneSize is zone_size; `arrays` is zone_array, `idle` is zone_free, `usage` is memusage, by page;
      `large` has the page counts of large allocations, `owner` the first page of whatever a page is in,
      and `runs` are the free page runs. */
  datatype Heap = Heap(
    zoneSize: nat, zones: map<nat, Zone>, arrays: seq<seq<nat>>, idle: seq<nat>, usage: map<nat, Usage>,
    large: map<nat, nat>, owner: map<nat, nat>, runs: PR.Runs)

  function ZonePages(h: Heap): nat {
    h.zoneSize / PAGE
  }

  /** Page p is page number `off` of something that begins at page b. */
  ghost predicate Owned(h: Heap, b: nat, off: nat) {
    b + off in h.owner && h.owner[b + off] == b
  }

  /** The pages of the zone at z are its own, and their descriptors say so. */
  ghost predicate ZonePagesOk(h: Heap, z: nat) {
    forall off :: 0 <= off < ZonePages(h) ==> ZonePageOk(h, z, off)
  }

  ghost predicate ZonePageOk(h: Heap, z: nat, off: nat) {
    Owned(h, z, off) && z + off in h.usage && h.usage[z + off] == Usage(SMALL, off)
  }

  /** An active zone is well formed, and on its list exactly while it has free chunks. */
  ghost predicate ActiveOk(h: Heap, z: nat)
    requires |h.arrays| == NZONES && z in h.zones
  {
    && ZoneOk(h.zoneSize, z, h.zones[z]) && ZonePagesOk(h, z)
    && (h.zones[z].nfree > 0 ==> z in h.arrays[h.zones[z].zoneIndex])
  }

  ghost predicate ListOk(h: Heap, i: nat)
    requires i < |h.arrays|
  {
    Distinct(h.arrays[i]) && forall z :: z in h.arrays[i] ==> Listed(h, z, i)
  }

  ghost predicate Listed(h: Heap, z: nat, i: nat) {
    z in h.zones && h.zones[z].zoneIndex == i && h.zones[z].nfree > 0
  }

  ghost predicate IdleOk(h: Heap, z: nat) {
    ZonePagesOk(h, z) && z !in h.zones && z !in h.large
  }

  ghost predicate LargeOk(h: Heap, a: nat)
    requires a in h.large
  {
    && h.large[a] > 0 && a !in h.zones
    && a in h.usage && h.usage[a] == Usage(LARGE, h.large[a])
    && forall off :: 0 <= off < h.large[a] ==> Owned(h, a, off)
  }

  /** What holds between any two calls. */
  ghost predicate HeapOk(h: Heap) {
    && ZoneSizeOk(h.zoneSize) && |h.arrays| == NZONES
    && (forall z :: z in h.zones ==> ActiveOk(h, z))
    && (forall i :: 0 <= i < NZONES ==> ListOk(h, i))
    && Distinct(h.idle) && (forall z :: z in h.idle ==> IdleOk(h, z))
    && (forall a :: a in h.large ==> LargeOk(h, a))
    && PR.Canonical(h.runs) && (forall p :: p in h.owner ==> !PR.Free(h.runs, p))
  }

  // ---------------------------------------------------------------- what callers hold

  ghost predicate LiveLarge(h: Heap, a: nat) {
    a % PAGE == 0 && a / PAGE in h.large
  }

  ghost predicate LiveSmall(h: Heap, a: nat) {
    a / PAGE in h.owner && h.owner[a / PAGE] in h.zones && LiveChunk(h.owner[a / PAGE], h.zones[h.owner[a / PAGE]], a)
  }

  /** Address a was returned to a caller who has not freed it. */
  ghost predicate Live(h: Heap, a: nat) {
    LiveLarge(h, a) || LiveSmall(h, a)
  }

  /** The bytes behind a live address that are the caller's. */
  ghost function SizeOf(h: Heap, a: nat): nat
    requires Live(h, a)
  {
    if LiveLarge(h, a) then h.large[a / PAGE] * PAGE else h.zones[h.owner[a / PAGE]].chunkSize
  }

  lemma OffsetInZone(zoneSize: nat, z: nat, a: nat)
    requires ZoneSizeOk(zoneSize) && z * PAGE <= a < z * PAGE + zoneSize
    ensures z <= a / PAGE < z + zoneSize / PAGE
  {
  }

  /** A chunk ever handed out lies on a page whose descriptor leads back to its zone. */
  lemma ChunkPage(h: Heap, z: nat, a: nat)
    requires HeapOk(h) && z in h.zones && UsedOnce(z, h.zones[z], a)
    ensures a / PAGE in h.owner && h.owner[a / PAGE] == z && z <= a / PAGE
    ensures a / PAGE in h.usage && h.usage[a / PAGE] == Usage(SMALL, a / PAGE - z)
    ensures z * PAGE + ZONE_HEADER <= a && a + h.zones[z].chunkSize <= z * PAGE + h.zoneSize
  {
    hide Distinct, Chunk, ChunksBegin, ChunksMax;
    assert ActiveOk(h, z);
    var i :| 0 <= i <= h.zones[z].uindex && a == ChunkAddr(z, h.zones[z], i);
    ChunkInZone(h.zoneSize, z, h.zones[z], i);
    ZoneShape(h.zoneSize, z, h.zones[z]);
    OffsetInZone(h.zoneSize, z, a);
    assert ZonePageOk(h, z, a / PAGE - z);
  }

  lemma LiveSmallExact(h: Heap, z: nat, a: nat)
    requires HeapOk(h) && z in h.zones && LiveChunk(z, h.zones[z], a)
    ensures LiveSmall(h, a) && !LiveLarge(h, a) && h.owner[a / PAGE] == z
  {
    ChunkPage(h, z, a);
    LargeOwners(h);
  }

  lemma LargeOwners(h: Heap)
    requires HeapOk(h)
    ensures forall b :: b in h.large ==> b in h.owner && h.owner[b] == b && b !in h.zones && b !in h.idle
  {
    forall b | b in h.large ensures b in h.owner && h.owner[b] == b && b !in h.zones {
      assert LargeOk(h, b) && Owned(h, b, 0);
    }
    assert forall z :: z in h.idle ==> IdleOk(h, z);
  }

  /** The page and the whole area of a live address belong to one owner. */
  lemma LiveArea(h: Heap, a: nat, x: nat)
    requires HeapOk(h) && Live(h, a) && a <= x < a + SizeOf(h, a)
    ensures a / PAGE in h.owner && x / PAGE in h.owner && h.owner[x / PAGE] == h.owner[a / PAGE]
    ensures !PR.Free(h.runs, x / PAGE)
  {
    hide Distinct, ZoneOk;
    if LiveLarge(h, a) {
      var b := a / PAGE;
      assert LargeOk(h, b);
      assert Owned(h, b, 0) && Owned(h, b, x / PAGE - b);
    } else {
      var z := h.owner[a / PAGE];
      ChunkPage(h, z, a);
      OffsetInZone(h.zoneSize, z, x);
      assert ActiveOk(h, z);
      assert ZonePageOk(h, z, x / PAGE - z);
    }
  }

  /** No two callers share a byte. */
  lemma LiveApart(h: Heap, a: nat, b: nat, x: nat)
    requires HeapOk(h) && Live(h, a) && Live(h, b)
    requires a <= x < a + SizeOf(h, a) && b <= x < b + SizeOf(h, b)
    ensures a == b
  {
    LiveArea(h, a, x);
    LiveArea(h, b, x);
    var o := h.owner[x / PAGE];
    if LiveLarge(h, a) {
      assert LargeOk(h, a / PAGE) && Owned(h, a / PAGE, 0);
    }
    if LiveLarge(h, b) {
      assert LargeOk(h, b / PAGE) && Owned(h, b / PAGE, 0);
    }
    if !LiveLarge(h, a) && !LiveLarge(h, b) {
      var zone := h.zones[o];
      assert ActiveOk(h, o);
      var i :| 0 <= i <= zone.uindex && a == ChunkAddr(o, zone, i);
      var j :| 0 <= j <= zone.uindex && b == ChunkAddr(o, zone, j);
      if i < j {
        ChunksApart(h.zoneSize, o, zone, i, j);
      } else if j < i {
        ChunksApart(h.zoneSize, o, zone, j, i);
      }
    }
  }

  // ---------------------------------------------------------------- transitions

  /** Zone z hands out a chunk, and leaves its list with its last one. */
  function HandOut(h: Heap, z: nat): Heap
    requires z in h.zones && h.zones[z].zoneIndex < |h.arrays| && h.arrays[h.zones[z].zoneIndex] != []
    requires h.zones[z].uindex + 1 != h.zones[z].nmax || h.zones[z].freeChunks != []
  {
    var zi := h.zones[z].zoneIndex;
    h.(zones := h.zones[z := Handed(h.zones[z])],
       arrays := if h.zones[z].nfree == 1 then h.arrays[zi := h.arrays[zi][1..]] else h.arrays)
  }

  /** A zone of pages in nobody else's hands becomes the first active zone of its index. */
  function Install(h: Heap, z: nat, zi: nat): Heap
    requires zi < |h.arrays| && zi < NZONES
  {
    h.(zones := h.zones[z := NewZone(h.zoneSize, zi)], arrays := h.arrays[zi := [z] + h.arrays[zi]])
  }

  /** Zone z takes chunk a back, and goes back on its list if it was not on it. */
  function TakeIn(h: Heap, z: nat, a: nat): Heap
    requires z in h.zones && h.zones[z].zoneIndex < |h.arrays|
  {
    var zi := h.zones[z].zoneIndex;
    h.(zones := h.zones[z := TakenBack(h.zones[z], a)],
       arrays := if h.zones[z].nfree == 0 then h.arrays[zi := [z] + h.arrays[zi]] else h.arrays)
  }

  /** A zone without live chunks moves to the whole zones kept for reuse. */
  function Retire(h: Heap, z: nat): Heap
    requires z in h.zones && h.zones[z].zoneIndex < |h.arrays|
  {
    var zi := h.zones[z].zoneIndex;
    h.(zones := h.zones - {z}, arrays := h.arrays[zi := Erase(h.arrays[zi], z)], idle := [z] + h.idle)
  }

  function PageRange(b: nat, n: nat): (r: set<nat>)
    ensures forall p :: p in r <==> b <= p < b + n
  {
    if n == 0 then {} else PageRange(b, n - 1) + {b + n - 1}
  }

  function OwnerOf(owner: map<nat, nat>, b: nat, n: nat): map<nat, nat> {
    owner + map p | p in PageRange(b, n) :: b
  }

  function Described(usage: map<nat, Usage>, z: nat, n: nat): map<nat, Usage> {
    usage + map p | p in PageRange(z, n) :: Usage(SMALL, p - z)
  }

  function Undescribed(usage: map<nat, Usage>, z: nat, n: nat): map<nat, Usage> {
    usage + map p | p in PageRange(z, n) :: Usage(FREE, 0)
  }

  function Disowned(owner: map<nat, nat>, b: nat, n: nat): map<nat, nat> {
    map p | p in owner && p !in PageRange(b, n) :: owner[p]
  }

  /** Pages for a zone, taken from the page allocator. */
  function WithZonePages(h: Heap, z: nat, runs: PR.Runs): Heap {
    h.(usage := Described(h.usage, z, ZonePages(h)), owner := OwnerOf(h.owner, z, ZonePages(h)), runs := runs)
  }

  /** The first kept zone's pages, given back to the page allocator. */
  function WithoutZonePages(h: Heap, runs: PR.Runs): Heap
    requires h.idle != []
  {
    var z := h.idle[0];
    h.(idle := h.idle[1..], usage := Undescribed(h.usage, z, ZonePages(h)),
       owner := Disowned(h.owner, z, ZonePages(h)), runs := runs)
  }

  function WithLarge(h: Heap, b: nat, n: nat, runs: PR.Runs): Heap {
    h.(large := h.large[b := n], usage := h.usage[b := Usage(LARGE, n)], owner := OwnerOf(h.owner, b, n), runs := runs)
  }

  function WithoutLarge(h: Heap, b: nat, runs: PR.Runs): Heap
    requires b in h.large
  {
    h.(large := h.large - {b}, usage := h.usage[b := Usage(LARGE, 0)], owner := Disowned(h.owner, b, h.large[b]), runs := runs)
  }

  // ---------------------------------------------------------------- what they keep

  lemma SamePages(h: Heap, h': Heap, z: nat)
    requires ZonePagesOk(h, z) && h'.zoneSize == h.zoneSize && h'.owner == h.owner && h'.usage == h.usage
    ensures ZonePagesOk(h', z)
  {
    forall off | 0 <= off < ZonePages(h') ensures ZonePageOk(h', z, off) {
      assert ZonePageOk(h, z, off);
    }
  }

  /** A heap in which only zone z and the list of its index may have changed. */
  ghost predicate OnlyZone(h: Heap, h': Heap, z: nat, zi: nat) {
    && |h.arrays| == NZONES && zi < NZONES && |h'.arrays| == NZONES
    && h' == h.(zones := h'.zones, arrays := h'.arrays)
    && (forall i :: 0 <= i < NZONES && i != zi ==> h'.arrays[i] == h.arrays[i])
    && (forall y :: y != z ==> (y in h'.zones <==> y in h.zones) && (y in h.zones ==> h'.zones[y] == h.zones[y]))
    && (forall y :: y != z ==> (y in h'.arrays[zi] <==> y in h.arrays[zi]))
    && Distinct(h'.arrays[zi])
    && z in h'.zones && h'.zones[z].zoneIndex == zi && (z in h'.arrays[zi] <==> h'.zones[z].nfree > 0)
    && (z in h.zones ==> h.zones[z].zoneIndex == zi)
  }

  lemma OnlyZoneOk(h: Heap, h': Heap, z: nat, zi: nat)
    requires HeapOk(h) && OnlyZone(h, h', z, zi) && ZoneOk(h.zoneSize, z, h'.zones[z]) && ZonePagesOk(h, z)
    requires z !in h.large && z !in h.idle
    ensures HeapOk(h')
  {
    hide ZoneOk, ZonePagesOk, Distinct;
    forall y | y in h'.zones ensures ActiveOk(h', y) {
      if y != z {
        assert ActiveOk(h, y);
        IndexBound(h.zoneSize, y, h.zones[y]);
      }
      SamePages(h, h', y);
    }
    forall i | 0 <= i < NZONES ensures ListOk(h', i) {
      assert ListOk(h, i);
      forall y | y in h'.arrays[i] ensures Listed(h', y, i) {
        assert y in h.arrays[i] ==> Listed(h, y, i);
      }
    }
    forall y | y in h'.idle ensures IdleOk(h', y) {
      assert IdleOk(h, y);
      SamePages(h, h', y);
    }
    forall a | a in h'.large ensures LargeOk(h', a) {
      assert LargeOk(h, a);
      forall off | 0 <= off < h'.large[a] ensures Owned(h', a, off) {
        assert Owned(h, a, off);
      }
    }
  }

  lemma IndexBound(zoneSize: nat, z: nat, zone: Zone)
    requires ZoneOk(zoneSize, z, zone)
    ensures zone.zoneIndex < NZONES
  {
  }

  /** The first zone on a list has a free chunk. */
  lemma ListHead(h: Heap, zi: nat)
    requires HeapOk(h) && zi < NZONES && h.arrays[zi] != []
    ensures var z := h.arrays[zi][0];
            && z in h.zones && h.zones[z].zoneIndex == zi && h.zones[z].nfree > 0 && ZoneOk(h.zoneSize, z, h.zones[z])
            && ZonePagesOk(h, z) && Distinct(h.arrays[zi]) && z in h.arrays[zi]
  {
    assert ListOk(h, zi);
    var z := h.arrays[zi][0];
    assert Listed(h, z, zi) && ActiveOk(h, z);
  }

  lemma HandOutOnly(h: Heap, z: nat)
    requires HeapOk(h) && z in h.zones && h.zones[z].zoneIndex < NZONES
    requires h.arrays[h.zones[z].zoneIndex] != [] && h.arrays[h.zones[z].zoneIndex][0] == z
    ensures h.zones[z].uindex + 1 != h.zones[z].nmax || h.zones[z].freeChunks != []
    ensures OnlyZone(h, HandOut(h, z), z, h.zones[z].zoneIndex)
  {
    var zone, zi := h.zones[z], h.zones[z].zoneIndex;
    ListHead(h, zi);
    HandedOk(h.zoneSize, z, zone);
    Behead(h.arrays[zi]);
    hide ZoneOk, HeapOk, LiveChunk, ZonePagesOk;
  }

  /** Handing out a chunk: it was nobody's, and is now live, with nothing else changed. */
  lemma HandOutOk(h: Heap, z: nat)
    requires HeapOk(h) && z in h.zones && h.zones[z].zoneIndex < NZONES
    requires h.arrays[h.zones[z].zoneIndex] != [] && h.arrays[h.zones[z].zoneIndex][0] == z
    ensures h.zones[z].uindex + 1 != h.zones[z].nmax || h.zones[z].freeChunks != []
    ensures HeapOk(HandOut(h, z))
    ensures var a := NextChunk(z, h.zones[z]);
            && !Live(h, a) && (forall x :: Live(HandOut(h, z), x) <==> Live(h, x) || x == a)
            && SizeOf(HandOut(h, z), a) == h.zones[z].chunkSize
  {
    hide ZoneOk, HeapOk, LiveChunk, ZonePagesOk, OnlyZone, Live;
    ZoneSizeKnown(h);
    ListHead(h, h.zones[z].zoneIndex);
    HandOutOnly(h, z);
    HandedOk(h.zoneSize, z, h.zones[z]);
    IdleApart(h, z);
    var h', a := HandOut(h, z), NextChunk(z, h.zones[z]);
    OnlyZoneOk(h, h', z, h.zones[z].zoneIndex);
    forall x ensures Live(h', x) <==> Live(h, x) || x == a {
      LiveChange(h, h', z, x);
    }
    LiveChange(h, h', z, a);
    LiveSmallExact(h', z, a);
  }

  lemma IdleApart(h: Heap, z: nat)
    requires HeapOk(h) && z in h.zones
    ensures z !in h.idle && z !in h.large
  {
    assert z in h.idle ==> IdleOk(h, z);
    assert z in h.large ==> LargeOk(h, z);
  }

  /** When only one zone changes, liveness changes with that zone's chunks only. */
  lemma LiveChange(h: Heap, h': Heap, z: nat, x: nat)
    requires HeapOk(h) && HeapOk(h') && z in h.zones && z in h'.zones && h'.large == h.large && h'.owner == h.owner
    requires forall y :: y != z ==> (y in h'.zones <==> y in h.zones) && (y in h.zones ==> h'.zones[y] == h.zones[y])
    ensures LiveChunk(z, h.zones[z], x) == LiveChunk(z, h'.zones[z], x) ==> (Live(h', x) <==> Live(h, x))
    ensures LiveChunk(z, h.zones[z], x) ==> Live(h, x)
    ensures LiveChunk(z, h'.zones[z], x) ==> Live(h', x)
    ensures LiveChunk(z, h'.zones[z], x) && !LiveChunk(z, h.zones[z], x) ==> !Live(h, x)
    ensures !LiveChunk(z, h'.zones[z], x) && LiveChunk(z, h.zones[z], x) ==> !Live(h', x)
  {
    hide LiveChunk, HeapOk;
    if LiveChunk(z, h.zones[z], x) {
      LiveSmallExact(h, z, x);
    }
    if LiveChunk(z, h'.zones[z], x) {
      LiveSmallExact(h', z, x);
    }
  }

  /** A new active zone, out of pages that are described as a zone's but in nobody's hands. */
  lemma InstallOk(h: Heap, z: nat, zi: nat)
    requires HeapOk(h) && zi < NZONES && Chunk(zi) <= ZoneLimit(h.zoneSize)
    requires ZonePagesOk(h, z) && z !in h.zones && z !in h.large && z !in h.idle
    ensures HeapOk(Install(h, z, zi)) && NewZone(h.zoneSize, zi).nfree > 0
    ensures var a := ChunkAddr(z, NewZone(h.zoneSize, zi), 0);
            && !Live(h, a) && (forall x :: Live(Install(h, z, zi), x) <==> Live(h, x) || x == a)
            && SizeOf(Install(h, z, zi), a) == Chunk(zi)
  {
    var h', zone := Install(h, z, zi), NewZone(h.zoneSize, zi);
    var a := ChunkAddr(z, zone, 0);
    NewZoneOk(h.zoneSize, zi, z);
    assert ListOk(h, zi);
    assert z in h.arrays[zi] ==> Listed(h, z, zi);
    hide ZoneOk, ZonePagesOk, LiveChunk;
    assert OnlyZone(h, h', z, zi);
    OnlyZoneOk(h, h', z, zi);
    hide HeapOk, OnlyZone, Chunk;
    LiveSmallExact(h', z, a);
    forall x ensures Live(h', x) <==> Live(h, x) || x == a {
      if LiveChunk(z, zone, x) {
        LiveSmallExact(h', z, x);
      }
    }
  }

  lemma TakeInOnly(h: Heap, z: nat, a: nat)
    requires HeapOk(h) && z in h.zones && LiveChunk(z, h.zones[z], a)
    ensures h.zones[z].zoneIndex < NZONES && ZoneOk(h.zoneSize, z, h.zones[z]) && ZonePagesOk(h, z)
    ensures OnlyZone(h, TakeIn(h, z, a), z, h.zones[z].zoneIndex)
  {
    var zone, zi := h.zones[z], h.zones[z].zoneIndex;
    assert ActiveOk(h, z);
    assert ListOk(h, zi);
    assert z in h.arrays[zi] ==> Listed(h, z, zi);
    FreeAtMost(h.zoneSize, z, zone);
    hide ZoneOk, HeapOk, LiveChunk, ZonePagesOk;
  }

  /** Taking a live chunk back: it is no longer live, and nothing else changes for callers. */
  lemma TakeInOk(h: Heap, z: nat, a: nat)
    requires HeapOk(h) && z in h.zones && LiveChunk(z, h.zones[z], a)
    ensures h.zones[z].zoneIndex < NZONES && HeapOk(TakeIn(h, z, a))
    ensures forall x :: Live(TakeIn(h, z, a), x) <==> Live(h, x) && x != a
  {
    hide ZoneOk, HeapOk, LiveChunk, ZonePagesOk, OnlyZone, Live;
    TakeInOnly(h, z, a);
    ZoneSizeKnown(h);
    TakenBackOk(h.zoneSize, z, h.zones[z], a);
    IdleApart(h, z);
    var h' := TakeIn(h, z, a);
    OnlyZoneOk(h, h', z, h.zones[z].zoneIndex);
    forall x ensures Live(h', x) <==> Live(h, x) && x != a {
      LiveChange(h, h', z, x);
    }
  }

  lemma ZoneSizeKnown(h: Heap)
    requires HeapOk(h)
    ensures ZoneSizeOk(h.zoneSize) && |h.arrays| == NZONES
  {
  }

  /** Retiring a zone whose chunks are all free changes nothing for callers. */
  lemma RetireOk(h: Heap, z: nat)
    requires HeapOk(h) && z in h.zones && h.zones[z].nfree == h.zones[z].nmax
    ensures h.zones[z].zoneIndex < NZONES && HeapOk(Retire(h, z))
    ensures forall x :: Live(Retire(h, z), x) <==> Live(h, x)
  {
    var zone, zi := h.zones[z], h.zones[z].zoneIndex;
    assert ActiveOk(h, z);
    IdleApart(h, z);
    var h' := Retire(h, z);
    RetireParts(h, z);
    forall x ensures Live(h', x) <==> Live(h, x) {
      AllFree(h.zoneSize, z, zone, x);
    }
  }

  lemma RetireParts(h: Heap, z: nat)
    requires HeapOk(h) && z in h.zones && h.zones[z].zoneIndex < NZONES && z !in h.idle && z !in h.large
    ensures HeapOk(Retire(h, z))
  {
    var h', zi := Retire(h, z), h.zones[z].zoneIndex;
    assert ActiveOk(h, z);
    hide ZoneOk, ZonePagesOk;
    EraseProps(h.arrays[zi], z);
    EraseDistinct(h.arrays[zi], z) by {
      assert ListOk(h, zi);
    }
    hide Erase;
    forall y | y in h'.zones ensures ActiveOk(h', y) {
      assert ActiveOk(h, y);
      IndexBound(h.zoneSize, y, h.zones[y]);
      SamePages(h, h', y);
    }
    forall i | 0 <= i < NZONES ensures ListOk(h', i) {
      assert ListOk(h, i);
      forall y | y in h'.arrays[i] ensures Listed(h', y, i) {
        assert Listed(h, y, i);
      }
    }
    SamePages(h, h', z);
    forall y | y in h'.idle ensures IdleOk(h', y) {
      if y != z {
        assert IdleOk(h, y);
        SamePages(h, h', y);
      }
    }
    forall a | a in h'.large ensures LargeOk(h', a) {
      assert LargeOk(h, a);
      forall off | 0 <= off < h'.large[a] ensures Owned(h', a, off) {
        assert Owned(h, a, off);
      }
    }
  }

  // ---------------------------------------------------------------- pages

  /** Nothing that owns pages owns any of n pages from b on; they were free and no longer are. */
  ghost predicate Granted(h: Heap, b: nat, n: nat, runs: PR.Runs) {
    && PR.Canonical(runs) && n > 0
    && (forall p: nat :: b <= p < b + n ==> p !in h.owner)
    && (forall p: nat :: PR.Free(runs, p) <==> PR.Free(h.runs, p) && !(b <= p < b + n))
  }

  /** What an owner's pages say stays the same when other pages change hands. */
  lemma OtherPages(h: Heap, h': Heap, z: nat)
    requires ZonePagesOk(h, z) && h'.zoneSize == h.zoneSize
    requires forall p :: p in h.owner && h.owner[p] == z ==> p in h'.owner && h'.owner[p] == z
    requires forall p :: p in h.owner && h.owner[p] == z && p in h.usage ==> p in h'.usage && h'.usage[p] == h.usage[p]
    ensures ZonePagesOk(h', z)
  {
    forall off | 0 <= off < ZonePages(h') ensures ZonePageOk(h', z, off) {
      assert ZonePageOk(h, z, off);
    }
  }

  /** The first page of whatever owns pages is its own. */
  lemma OwnersOwn(h: Heap, z: nat)
    requires HeapOk(h) && (z in h.zones || z in h.idle || z in h.large)
    ensures z in h.owner && h.owner[z] == z
    ensures z !in h.large ==> ZonePagesOk(h, z)
  {
    hide ZoneOk;
    if z in h.large {
      LargeOwners(h);
    } else {
      if z in h.zones {
        assert ActiveOk(h, z);
      } else {
        assert IdleOk(h, z);
      }
      assert ZonePageOk(h, z, 0);
    }
  }

  /** Everything but the owners' pages and descriptors is as before. */
  lemma SameOwners(h: Heap, h': Heap)
    requires HeapOk(h) && h'.zoneSize == h.zoneSize && h'.zones == h.zones && h'.arrays == h.arrays
    requires h'.large == h.large && PR.Canonical(h'.runs) && (forall p :: p in h'.owner ==> !PR.Free(h'.runs, p))
    requires Distinct(h'.idle) && forall z :: z in h'.idle ==> z in h.idle
    requires forall p :: p in h.owner && (h.owner[p] in h.zones || h.owner[p] in h'.idle || h.owner[p] in h.large) ==>
               p in h'.owner && h'.owner[p] == h.owner[p] && (p in h.usage ==> p in h'.usage && h'.usage[p] == h.usage[p])
    ensures HeapOk(h')
  {
    hide ZoneOk, Distinct;
    forall y | y in h'.zones ensures ActiveOk(h', y) {
      assert ActiveOk(h, y);
      OtherPages(h, h', y);
    }
    forall i | 0 <= i < NZONES ensures ListOk(h', i) {
      assert ListOk(h, i);
      forall y | y in h'.arrays[i] ensures Listed(h', y, i) {
        assert Listed(h, y, i);
      }
    }
    forall y | y in h'.idle ensures IdleOk(h', y) {
      assert IdleOk(h, y);
      OtherPages(h, h', y);
    }
    forall a | a in h'.large ensures LargeOk(h', a) {
      assert LargeOk(h, a);
      OwnersOwn(h, a);
      forall off | 0 <= off < h'.large[a] ensures Owned(h', a, off) {
        assert Owned(h, a, off);
      }
    }
  }

  /** Live addresses depend on the owners of their own pages only. */
  lemma SameLive(h: Heap, h': Heap, x: nat)
    requires HeapOk(h) && HeapOk(h') && h'.zones == h.zones && h'.large == h.large
    ensures Live(h', x) <==> Live(h, x)
  {
    hide LiveChunk, HeapOk;
    if LiveSmall(h, x) {
      LiveSmallExact(h', h.owner[x / PAGE], x);
    }
    if LiveSmall(h', x) {
      LiveSmallExact(h, h'.owner[x / PAGE], x);
    }
  }

  lemma FreshZonePages(h: Heap, z: nat, runs: PR.Runs)
    ensures ZonePagesOk(WithZonePages(h, z, runs), z)
  {
  }

  /** Fresh pages become a zone's: nothing changes for callers. */
  lemma WithZonePagesOk(h: Heap, z: nat, runs: PR.Runs)
    requires HeapOk(h) && Granted(h, z, ZonePages(h), runs)
    ensures HeapOk(WithZonePages(h, z, runs)) && ZonePagesOk(WithZonePages(h, z, runs), z)
    ensures z !in h.zones && z !in h.large && z !in h.idle
    ensures forall x :: Live(WithZonePages(h, z, runs), x) <==> Live(h, x)
  {
    hide ActiveOk, ListOk, IdleOk, LargeOk, Live, Distinct;
    var h' := WithZonePages(h, z, runs);
    if z in h.zones || z in h.large || z in h.idle {
      OwnersOwn(h, z);
    }
    SameOwners(h, h');
    FreshZonePages(h, z, runs);
    hide HeapOk;
    forall x ensures Live(h', x) <==> Live(h, x) {
      SameLive(h, h', x);
    }
  }

  /** A kept zone's pages, given back: nothing changes for callers, and nobody owns the pages. */
  lemma WithoutZonePagesOk(h: Heap, runs: PR.Runs)
    requires HeapOk(h) && h.idle != [] && PR.Canonical(runs)
    requires forall p: nat :: PR.Free(runs, p) <==> PR.Free(h.runs, p) || h.idle[0] <= p < h.idle[0] + ZonePages(h)
    ensures HeapOk(WithoutZonePages(h, runs))
    ensures forall x :: Live(WithoutZonePages(h, runs), x) <==> Live(h, x)
  {
    var h', z := WithoutZonePages(h, runs), h.idle[0];
    assert z in h.idle;
    OwnersOwn(h, z);
    assert IdleOk(h, z);
    Behead(h.idle);
    forall p | p in PageRange(z, ZonePages(h)) ensures p in h.owner && h.owner[p] == z {
      assert ZonePageOk(h, z, p - z);
    }
    SameOwners(h, h');
    hide HeapOk, Live;
    forall x ensures Live(h', x) <==> Live(h, x) {
      SameLive(h, h', x);
    }
  }

  /** The pages of the first kept zone are not free. */
  lemma IdlePagesAbsent(h: Heap)
    requires HeapOk(h) && h.idle != []
    ensures PR.Absent(h.runs, h.idle[0], ZonePages(h)) && ZonePages(h) > 0
  {
    var z := h.idle[0];
    assert z in h.idle;
    assert IdleOk(h, z);
    forall p: nat | z <= p < z + ZonePages(h) ensures !PR.Free(h.runs, p) {
      assert ZonePageOk(h, z, p - z);
    }
  }

  lemma LargePagesAbsent(h: Heap, a: nat)
    requires HeapOk(h) && a in h.large
    ensures PR.Absent(h.runs, a, h.large[a]) && h.large[a] > 0
  {
    assert LargeOk(h, a);
    forall p: nat | a <= p < a + h.large[a] ensures !PR.Free(h.runs, p) {
      assert Owned(h, a, p - a);
    }
  }

  /** Fresh pages become a large allocation: its address was nobody's, and is now live. */
  lemma WithLargeOk(h: Heap, b: nat, n: nat, runs: PR.Runs)
    requires HeapOk(h) && Granted(h, b, n, runs)
    ensures HeapOk(WithLarge(h, b, n, runs)) && !Live(h, b * PAGE)
    ensures forall x :: Live(WithLarge(h, b, n, runs), x) <==> Live(h, x) || x == b * PAGE
    ensures LiveLarge(WithLarge(h, b, n, runs), b * PAGE) && SizeOf(WithLarge(h, b, n, runs), b * PAGE) == n * PAGE
  {
    hide ActiveOk, ListOk, IdleOk, LargeOk, LiveChunk, Distinct;
    var h', h1 := WithLarge(h, b, n, runs), h.(usage := h.usage[b := Usage(LARGE, n)], owner := OwnerOf(h.owner, b, n), runs := runs);
    if b in h.zones || b in h.large || b in h.idle {
      OwnersOwn(h, b);
    }
    SameOwners(h, h1);
    AddLargeOk(h1, b, n);
    hide HeapOk, LiveChunk;
    forall x ensures Live(h', x) <==> Live(h, x) || x == b * PAGE {
      SameLive(h, h1, x);
    }
    assert b * PAGE / PAGE == b;
  }

  lemma AddLargeOk(h: Heap, b: nat, n: nat)
    requires HeapOk(h) && b !in h.zones && b !in h.idle && b !in h.large && n > 0
    requires b in h.usage && h.usage[b] == Usage(LARGE, n) && forall p: nat :: b <= p < b + n ==> p in h.owner && h.owner[p] == b
    ensures HeapOk(h.(large := h.large[b := n]))
  {
    hide ZoneOk, Distinct;
    var h' := h.(large := h.large[b := n]);
    forall y | y in h'.zones ensures ActiveOk(h', y) {
      assert ActiveOk(h, y);
      SamePages(h, h', y);
    }
    forall i | 0 <= i < NZONES ensures ListOk(h', i) {
      assert ListOk(h, i);
      forall y | y in h'.arrays[i] ensures Listed(h', y, i) {
        assert Listed(h, y, i);
      }
    }
    forall y | y in h'.idle ensures IdleOk(h', y) {
      assert IdleOk(h, y);
      SamePages(h, h', y);
    }
    forall a | a in h'.large ensures LargeOk(h', a) {
      assert a != b ==> LargeOk(h, a);
      forall off | 0 <= off < h'.large[a] ensures Owned(h', a, off) {
        assert a != b ==> Owned(h, a, off);
      }
    }
  }

  /** A large allocation's pages, given back: its address is no longer live. */
  lemma WithoutLargeOk(h: Heap, b: nat, runs: PR.Runs)
    requires HeapOk(h) && b in h.large && PR.Canonical(runs)
    requires forall p: nat :: PR.Free(runs, p) <==> PR.Free(h.runs, p) || b <= p < b + h.large[b]
    ensures HeapOk(WithoutLarge(h, b, runs))
    ensures forall x :: Live(WithoutLarge(h, b, runs), x) <==> Live(h, x) && x != b * PAGE
  {
    var h', h1 := WithoutLarge(h, b, runs), h.(large := h.large - {b});
    OwnersOwn(h, b);
    assert LargeOk(h, b);
    LargeOwners(h);
    RemoveLargeOk(h, b);
    forall p | p in PageRange(b, h.large[b]) ensures p in h.owner && h.owner[p] == b {
      assert Owned(h, b, p - b);
    }
    hide ActiveOk, ListOk, IdleOk, LargeOk, LiveChunk, Distinct;
    SameOwners(h1, h');
    forall x: nat ensures Live(h', x) <==> Live(h, x) && x != b * PAGE {
      LargeGone(h, h1, h', b, x);
    }
  }

  lemma LargeGone(h: Heap, h1: Heap, h': Heap, b: nat, x: nat)
    requires HeapOk(h) && HeapOk(h1) && HeapOk(h') && b in h.large && h1 == h.(large := h.large - {b})
    requires h'.zones == h1.zones && h'.large == h1.large
    ensures Live(h', x) <==> Live(h, x) && x != b * PAGE
  {
    hide LiveChunk, HeapOk;
    SameLive(h1, h', x);
    if LiveSmall(h, x) {
      LiveSmallExact(h, h.owner[x / PAGE], x);
    }
    assert b * PAGE / PAGE == b;
  }

  lemma RemoveLargeOk(h: Heap, b: nat)
    requires HeapOk(h) && b in h.large
    ensures HeapOk(h.(large := h.large - {b}))
  {
    hide ZoneOk, Distinct;
    var h' := h.(large := h.large - {b});
    forall y | y in h'.zones ensures ActiveOk(h', y) {
      assert ActiveOk(h, y);
      SamePages(h, h', y);
    }
    forall i | 0 <= i < NZONES ensures ListOk(h', i) {
      assert ListOk(h, i);
      forall y | y in h'.arrays[i] ensures Listed(h', y, i) {
        assert Listed(h, y, i);
      }
    }
    forall y | y in h'.idle ensures IdleOk(h', y) {
      assert IdleOk(h, y);
      SamePages(h, h', y);
    }
    forall a | a in h'.large ensures LargeOk(h', a) {
      assert LargeOk(h, a);
      forall off | 0 <= off < h'.large[a] ensures Owned(h', a, off) {
        assert Owned(h, a, off);
      }
    }
  }
}
