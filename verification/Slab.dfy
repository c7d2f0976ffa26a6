/** rt_malloc and rt_free of src/slab.c, on the page allocator. */
module Slab {
  import opened Basics
  import opened SlabZones
  import opened SlabHeap
  import PR = PageRuns

  /** ZONE_RELEASE_THRESH */
  const RELEASE_THRESHOLD: nat := 2

  class SlabAllocator {
    const pages: PR.PageAllocator
    /** zone_size */
    const zoneSize: nat
    var zones: map<nat, Zone>
    /** zone_array, zone_free and zone_free_cnt */
    var zoneArray: seq<seq<nat>>
    var zoneFree: seq<nat>
    var zoneFreeCnt: nat
    /** memusage */
    var usage: map<nat, Usage>
    ghost var large: map<nat, nat>
    ghost var owner: map<nat, nat>

    ghost function Abs(): Heap
      reads this, pages
    {
      Heap(zoneSize, zones, zoneArray, zoneFree, usage, large, owner, pages.runs)
    }

    ghost predicate Valid()
      reads this, pages
    {
      pages.Valid() && HeapOk(Abs()) && zoneFreeCnt == |zoneFree| <= RELEASE_THRESHOLD
    }

    /** rt_system_heap_init of npages pages from `start` on; the first of them hold memusage. */
    constructor (start: nat, npages: nat)
      requires npages > 0
      ensures Valid() && fresh(pages) && forall a :: !Live(Abs(), a)
      ensures zoneSize == MAX_ZONE <==> npages * PAGE / 1024 > MAX_ZONE
      ensures zoneSize == MIN_ZONE <==> npages * PAGE / 1024 <= 2 * MIN_ZONE
      ensures zoneSize in {MIN_ZONE, 2 * MIN_ZONE, MAX_ZONE}
      ensures forall p: nat :: PR.Free(pages.runs, p) <==> start + MemusagePages(npages) <= p < start + npages
    {
      var zs := ZoneSize(npages * PAGE);
      zoneSize := zs;
      pages := new PR.PageAllocator(start, npages);
      zones, zoneArray, zoneFree, zoneFreeCnt, usage := map[], seq(NZONES, _ => []), [], 0, map[];
      large, owner := map[], map[];
      new;
      MemusageFits(npages);
      var _ := pages.Alloc(MemusagePages(npages));
      PR.TakenExact([PR.Run(start, npages)], 0, MemusagePages(npages));
      EmptyOk(Abs());
    }

    /** The pages that hold the page descriptors, four bytes for each page */
    static function MemusagePages(npages: nat): nat {
      RoundUp(npages * 4, PAGE) / PAGE
    }

    static lemma MemusageFits(npages: nat)
      requires npages > 0
      ensures 0 < MemusagePages(npages) <= npages
    {
      var q := (npages * 4 + PAGE - 1) / PAGE;
      assert MemusagePages(npages) == q;
    }

    static lemma EmptyOk(h: Heap)
      requires ZoneSizeOk(h.zoneSize) && h.zones == map[] && |h.arrays| == NZONES && h.idle == [] && h.large == map[] && h.owner == map[]
      requires (forall i :: 0 <= i < NZONES ==> h.arrays[i] == []) && PR.Canonical(h.runs)
      ensures HeapOk(h) && forall a :: !Live(h, a)
    {
    }

    /** rt_page_alloc: the pages were free, so nobody owned them. */
    method TakePages(n: nat) returns (b: Option<nat>)
      requires Valid() && n > 0
      modifies pages
      ensures pages.Valid()
      ensures b.None? ==> pages.runs == old(pages.runs)
      ensures b.None? <==> forall i :: 0 <= i < |old(pages.runs)| ==> old(pages.runs)[i].len < n
      ensures b.Some? ==> Granted(old(Abs()), b.value, n, pages.runs) && FirstRun(old(pages.runs), n, b.value, pages.runs)
    {
      hide PR.Canonical, HeapOk;
      ghost var h := Abs();
      b := pages.Alloc(n);
      if b.Some? {
        GrantedPages(h, n);
      }
    }

    /** The n pages from b on are the front of the first run that has as many. */
    static ghost predicate FirstRun(runs: PR.Runs, n: nat, b: nat, runs': PR.Runs) {
      var i := PR.FirstFit(runs, n);
      i < |runs| && b == runs[i].start && runs' == PR.Taken(runs, i, n)
    }

    static lemma GrantedPages(h: Heap, n: nat)
      requires HeapOk(h) && n > 0 && PR.FirstFit(h.runs, n) < |h.runs|
      ensures var i := PR.FirstFit(h.runs, n); Granted(h, h.runs[i].start, n, PR.Taken(h.runs, i, n))
    {
      var i := PR.FirstFit(h.runs, n);
      PR.TakenExact(h.runs, i, n);
      forall p: nat | h.runs[i].start <= p < h.runs[i].start + n ensures p !in h.owner {
        assert PR.InRun(h.runs[i], p);
      }
      forall p: nat ensures PR.Free(PR.Taken(h.runs, i, n), p) <==> PR.Free(h.runs, p) && !(h.runs[i].start <= p < h.runs[i].start + n) {
        assert PR.InRun(PR.Run(h.runs[i].start, n), p) <==> h.runs[i].start <= p < h.runs[i].start + n;
      }
    }

    /** rt_malloc.  A granted address was nobody's, has the bytes asked for, and is the only change for
        callers; it is refused only when the page allocator has no run long enough. */
    method Malloc(size: nat) returns (chunk: Option<nat>)
      requires Valid()
      modifies this, pages
      ensures Valid()
      ensures size == 0 ==> chunk.None?
      ensures chunk.None? ==> forall x :: Live(Abs(), x) <==> old(Live(Abs(), x))
      ensures chunk.None? && size > 0 ==>
                forall i :: 0 <= i < |old(pages.runs)| ==>
                  old(pages.runs)[i].len * PAGE < if size >= ZoneLimit(zoneSize) then size else zoneSize
      ensures chunk.Some? ==>
                && !old(Live(Abs(), chunk.value)) && Live(Abs(), chunk.value) && size <= SizeOf(Abs(), chunk.value) < size + PAGE
                && forall x :: Live(Abs(), x) <==> old(Live(Abs(), x)) || x == chunk.value
    {
      hide HeapOk, Live, SizeOf, ZoneIndex, Chunk;
      if size == 0 {
        return None;
      }
      if size >= ZoneLimit(zoneSize) {
        chunk := MallocLarge(size);
        return;
      }
      ZoneSizeKnown(Abs());
      ZoneIndexBestFit(size);
      ChunkLimit(zoneSize, size);
      ChunkSlack(size);
      var (zi, bytes) := ZoneIndex(size);
      if zoneArray[zi] != [] {
        chunk := MallocListed(zi, bytes);
      } else {
        chunk := MallocNewZone(zi, bytes);
      }
    }

    static lemma ChunkLimit(zoneSize: nat, size: nat)
      requires ZoneSizeOk(zoneSize) && 1 <= size < ZoneLimit(zoneSize)
      ensures ZoneIndex(size).1 <= ZoneLimit(zoneSize)
    {
    }

    /** A request of zone_limit bytes or more goes to the page allocator. */
    method MallocLarge(size: nat) returns (chunk: Option<nat>)
      requires Valid() && size >= ZoneLimit(zoneSize) && size > 0
      modifies this, pages
      ensures Valid()
      ensures chunk.None? ==> Abs() == old(Abs())
      ensures chunk.None? ==> forall i :: 0 <= i < |old(pages.runs)| ==> old(pages.runs)[i].len * PAGE < size
      ensures chunk.Some? ==>
                var b, n := chunk.value / PAGE, RoundUp(size, PAGE) / PAGE;
                chunk.value == b * PAGE && FirstRun(old(pages.runs), n, b, pages.runs) && Abs() == WithLarge(old(Abs()), b, n, pages.runs)
      ensures chunk.Some? ==>
                && !old(Live(Abs(), chunk.value)) && Live(Abs(), chunk.value) && size <= SizeOf(Abs(), chunk.value) < size + PAGE
                && forall x :: Live(Abs(), x) <==> old(Live(Abs(), x)) || x == chunk.value
    {
      hide HeapOk, LiveSmall, Granted;
      var bytes := RoundUp(size, PAGE);
      RoundUpPages(size);
      var n := bytes / PAGE;
      ghost var h := Abs();
      var b := TakePages(n);
      if b.None? {
        return None;
      }
      usage := usage[b.value := Usage(LARGE, n)];
      large := large[b.value := n];
      owner := OwnerOf(owner, b.value, n);
      assert Abs() == WithLarge(h, b.value, n, pages.runs);
      WithLargeOk(h, b.value, n, pages.runs);
      chunk := Some(b.value * PAGE);
      assert chunk.value / PAGE == b.value;
    }

    /** A large request takes the least number of pages that hold it. */
    static lemma RoundUpPages(size: nat)
      requires size > 0
      ensures var n := RoundUp(size, PAGE) / PAGE; n > 0 && (n - 1) * PAGE < size <= n * PAGE
    {
    }

    /** A chunk is less than a page longer than what was asked for. */
    static lemma ChunkSlack(size: nat)
      requires 1 <= size < ZONE_LIMIT
      ensures size <= ZoneIndex(size).1 < size + PAGE
    {
    }

    /** A request served by the first zone of its index. */
    method MallocListed(zi: int, bytes: nat) returns (chunk: Option<nat>)
      requires Valid() && 0 <= zi < NZONES && bytes == Chunk(zi) && |zoneArray| == NZONES && zoneArray[zi] != []
      modifies this
      ensures Valid() && chunk.Some?
      ensures var h, z := old(Abs()), old(zoneArray)[zi][0];
              && z in h.zones && h.zones[z].zoneIndex == zi && (h.zones[z].uindex + 1 != h.zones[z].nmax || h.zones[z].freeChunks != [])
              && Abs() == HandOut(h, z) && chunk.value == NextChunk(z, h.zones[z])
      ensures !old(Live(Abs(), chunk.value)) && Live(Abs(), chunk.value) && SizeOf(Abs(), chunk.value) == bytes
      ensures forall x :: Live(Abs(), x) <==> old(Live(Abs(), x)) || x == chunk.value
    {
      hide HeapOk, Live, SizeOf, Chunk, Distinct, ZonePagesOk;
      ghost var h := Abs();
      ListHead(h, zi);
      var z := zoneArray[zi][0];
      HandOutOk(h, z);
      var zone := zones[z];
      zone := zone.(nfree := zone.nfree - 1);
      if zone.nfree == 0 {
        zoneArray := zoneArray[zi := zoneArray[zi][1..]];
      }
      if zone.uindex + 1 != zone.nmax {
        zone := zone.(uindex := zone.uindex + 1);
        chunk := Some(z * PAGE + zone.base + zone.uindex * bytes);
      } else {
        chunk := Some(zone.freeChunks[0]);
        zone := zone.(freeChunks := zone.freeChunks[1..]);
      }
      zones := zones[z := zone];
      assert Abs() == HandOut(h, z);
    }

    /** Setting the page descriptors of a zone. */
    method Describe(z: nat)
      modifies this`usage
      ensures usage == Described(old(usage), z, zoneSize / PAGE)
    {
      var off := 0;
      while off < zoneSize / PAGE
        invariant off <= zoneSize / PAGE && usage == Described(old(usage), z, off)
      {
        usage := usage[z + off := Usage(SMALL, off)];
        off := off + 1;
        assert usage == Described(old(usage), z, off);
      }
    }

    method Undescribe(z: nat)
      modifies this`usage
      ensures usage == Undescribed(old(usage), z, zoneSize / PAGE)
    {
      var i := 0;
      while i < zoneSize / PAGE
        invariant i <= zoneSize / PAGE && usage == Undescribed(old(usage), z, i)
      {
        usage := usage[z + i := Usage(FREE, 0)];
        i := i + 1;
      }
    }

    /** A zone's worth of fresh pages. */
    method FreshZone() returns (z: Option<nat>)
      requires Valid()
      modifies this`usage, this`owner, pages
      ensures Valid()
      ensures z.None? ==> Abs() == old(Abs()) && forall i :: 0 <= i < |old(pages.runs)| ==> old(pages.runs)[i].len < zoneSize / PAGE
      ensures z.Some? ==> FirstRun(old(pages.runs), zoneSize / PAGE, z.value, pages.runs) && Abs() == WithZonePages(old(Abs()), z.value, pages.runs)
      ensures z.Some? ==> ZonePagesOk(Abs(), z.value) && z.value !in zones && z.value !in large && z.value !in zoneFree
      ensures forall x :: Live(Abs(), x) <==> old(Live(Abs(), x))
    {
      hide HeapOk, Live, Granted, ZonePagesOk, Described, OwnerOf;
      ghost var h := Abs();
      ZoneSizeKnown(h);
      z := TakePages(zoneSize / PAGE);
      if z.Some? {
        Describe(z.value);
        owner := OwnerOf(owner, z.value, zoneSize / PAGE);
        assert Abs() == WithZonePages(h, z.value, pages.runs);
        WithZonePagesOk(h, z.value, pages.runs);
      }
    }

    /** A zone's pages in nobody's hands: those of the first kept zone, or fresh ones. */
    method SpareZone() returns (z: Option<nat>)
      requires Valid()
      modifies this`zoneFree, this`zoneFreeCnt, this`usage, this`owner, pages
      ensures Valid()
      ensures z.None? ==> Abs() == old(Abs()) && forall i :: 0 <= i < |old(pages.runs)| ==> old(pages.runs)[i].len < zoneSize / PAGE
      ensures z.Some? ==> SpareFrom(old(Abs()), Abs(), z.value)
      ensures z.Some? ==> ZonePagesOk(Abs(), z.value) && z.value !in zones && z.value !in large && z.value !in zoneFree
      ensures forall x :: Live(Abs(), x) <==> old(Live(Abs(), x))
    {
      hide HeapOk, Live, Distinct, ZonePagesOk, WithZonePages, PR.Canonical;
      ghost var h := Abs();
      if zoneFree != [] {
        z := Some(zoneFree[0]);
        ReuseOk(h);
        zoneFree := zoneFree[1..];
        zoneFreeCnt := zoneFreeCnt - 1;
        assert Abs() == h.(idle := h.idle[1..]);
      } else {
        z := FreshZone();
      }
    }

    /** The zone is the first kept one, or the front of the first run of enough pages. */
    static ghost predicate SpareFrom(h: Heap, h': Heap, z: nat) {
      if h.idle != [] then z == h.idle[0] && h' == h.(idle := h.idle[1..])
      else
        var i := PR.FirstFit(h.runs, ZonePages(h));
        i < |h.runs| && z == h.runs[i].start && h' == WithZonePages(h, z, PR.Taken(h.runs, i, ZonePages(h)))
    }

    /** A request whose zones are all exhausted: a kept zone or fresh pages become a new one. */
    method MallocNewZone(zi: int, bytes: nat) returns (chunk: Option<nat>)
      requires Valid() && 0 <= zi < NZONES && bytes == Chunk(zi) && bytes <= ZoneLimit(zoneSize)
      modifies this, pages
      ensures Valid()
      ensures chunk.None? ==> Abs() == old(Abs())
      ensures chunk.Some? ==> NewlyInstalled(old(Abs()), Abs(), zi, chunk.value)
      ensures chunk.None? ==> forall i :: 0 <= i < |old(pages.runs)| ==> old(pages.runs)[i].len * PAGE < zoneSize
      ensures chunk.Some? ==>
                && !old(Live(Abs(), chunk.value)) && Live(Abs(), chunk.value) && SizeOf(Abs(), chunk.value) == bytes
                && forall x :: Live(Abs(), x) <==> old(Live(Abs(), x)) || x == chunk.value
    {
      hide HeapOk, Live, SizeOf, Chunk, Distinct, ZonePagesOk, SpareFrom, NewZone;
      ZoneSizeKnown(Abs());
      var spare := SpareZone();
      if spare.None? {
        return None;
      }
      var z := spare.value;
      ghost var h := Abs();
      InstallOk(h, z, zi);
      NewZoneIs(zoneSize, zi);
      var off := ChunksBegin(bytes);
      var nmax := (zoneSize - off) / bytes;
      zones := zones[z := Zone(nmax - 1, nmax, off, 0, bytes, zi, [])];
      chunk := Some(z * PAGE + off + 0 * bytes);
      zoneArray := zoneArray[zi := [z] + zoneArray[zi]];
      assert Abs() == Install(h, z, zi);
      assert SpareFrom(old(Abs()), h, z);
    }

    static lemma NewZoneIs(zoneSize: nat, zi: nat)
      requires zi < NZONES
      ensures Chunk(zi) > 0
      ensures NewZone(zoneSize, zi) ==
              Zone(ChunksMax(zoneSize, Chunk(zi)) - 1, ChunksMax(zoneSize, Chunk(zi)), ChunksBegin(Chunk(zi)), 0, Chunk(zi), zi, [])
    {
    }

    /** A spare zone has become an active zone of index zi, with its first chunk a handed out. */
    static ghost predicate NewlyInstalled(h: Heap, h': Heap, zi: nat, a: nat)
      requires zi < NZONES
    {
      exists h1, z ::
        && SpareFrom(h, h1, z) && |h1.arrays| == NZONES && h' == Install(h1, z, zi)
        && a == ChunkAddr(z, NewZone(h.zoneSize, zi), 0)
    }

    /** Taking the first kept zone off their list leaves its pages in nobody's hands. */
    static lemma ReuseOk(h: Heap)
      requires HeapOk(h) && h.idle != []
      ensures var h' := h.(idle := h.idle[1..]);
              && HeapOk(h') && (forall x :: Live(h', x) <==> Live(h, x))
              && ZonePagesOk(h', h.idle[0]) && h.idle[0] !in h'.zones && h.idle[0] !in h'.large && h.idle[0] !in h'.idle
    {
      var h', z := h.(idle := h.idle[1..]), h.idle[0];
      assert z in h.idle;
      assert IdleOk(h, z);
      Behead(h.idle);
      SameOwners(h, h');
      SamePages(h, h', z);
      hide HeapOk, Live;
      forall x ensures Live(h', x) <==> Live(h, x) {
        SameLive(h, h', x);
      }
    }

    // -------------------------------------------------------------- rt_free

    /** rt_free: the descriptor of the address's page leads to what it belongs to; the address is no longer
        live, and no other is affected. */
    method Free(ptr: Option<nat>)
      requires Valid() && (ptr.Some? ==> Live(Abs(), ptr.value))
      modifies this, pages
      ensures Valid()
      ensures forall x: nat :: Live(Abs(), x) <==> old(Live(Abs(), x)) && Some(x) != ptr
    {
      hide HeapOk, LiveChunk, ZoneOk;
      if ptr.None? {
        return;
      }
      var a := ptr.value;
      FreePage(Abs(), a);
      var kup := usage[a / PAGE];
      if kup.kind == LARGE {
        FreeLarge(a, kup.size);
        return;
      }
      var z := a / PAGE - kup.size;
      FreeChunk(z, a);
    }

    /** What the page descriptor says about a live address. */
    static lemma FreePage(h: Heap, a: nat)
      requires HeapOk(h) && Live(h, a)
      ensures a / PAGE in h.usage
      ensures h.usage[a / PAGE].kind == LARGE <==> LiveLarge(h, a)
      ensures LiveLarge(h, a) ==> h.usage[a / PAGE].size == h.large[a / PAGE]
      ensures !LiveLarge(h, a) ==>
                var z := a / PAGE - h.usage[a / PAGE].size; 0 <= z && z in h.zones && LiveChunk(z, h.zones[z], a)
    {
      if LiveLarge(h, a) {
        assert LargeOk(h, a / PAGE);
      } else {
        ChunkPage(h, h.owner[a / PAGE], a);
      }
    }

    method FreeLarge(a: nat, size: nat)
      requires Valid() && LiveLarge(Abs(), a) && size == large[a / PAGE]
      modifies this, pages
      ensures Valid()
      ensures forall x :: Live(Abs(), x) <==> old(Live(Abs(), x)) && x != a
    {
      hide HeapOk, LiveSmall, PR.Canonical;
      ghost var h := Abs();
      var b := a / PAGE;
      LargePagesAbsent(h, b);
      RunsCanonical(h);
      PR.ReturnedExact(pages.runs, b, size);
      usage := usage[b := Usage(LARGE, 0)];
      large := large - {b};
      owner := Disowned(owner, b, size);
      pages.FreePages(b, size);
      assert Abs() == WithoutLarge(h, b, pages.runs);
      ReturnedPages(h.runs, pages.runs, b, size);
      WithoutLargeOk(h, b, pages.runs);
      assert b * PAGE == a;
    }

    static lemma RunsCanonical(h: Heap)
      requires HeapOk(h)
      ensures PR.Canonical(h.runs)
    {
    }

    static lemma ReturnedPages(runs: PR.Runs, runs': PR.Runs, b: nat, n: nat)
      requires forall p :: PR.Free(runs', p) <==> PR.Free(runs, p) || PR.InRun(PR.Run(b, n), p)
      ensures forall p: nat :: PR.Free(runs', p) <==> PR.Free(runs, p) || b <= p < b + n
    {
      forall p: nat ensures PR.Free(runs', p) <==> PR.Free(runs, p) || b <= p < b + n {
        assert PR.InRun(PR.Run(b, n), p) <==> b <= p < b + n;
      }
    }

    /** What freeing chunk a of zone z does: the zone takes it back; when all its chunks are free and there
        is another zone for its index, it is kept for reuse; a third kept zone goes back to the pages. */
    static ghost function Freed(h: Heap, z: nat, a: nat): Heap
      requires z in h.zones && h.zones[z].zoneIndex < |h.arrays|
    {
      var h1, zi := TakeIn(h, z, a), h.zones[z].zoneIndex;
      if h1.zones[z].nfree == h1.zones[z].nmax && h1.arrays[zi] != [z] then
        var h2 := Retire(h1, z);
        if |h2.idle| > RELEASE_THRESHOLD then WithoutZonePages(h2, PR.Returned(h2.runs, h2.idle[0], ZonePages(h2))) else h2
      else h1
    }

    method FreeChunk(z: nat, a: nat)
      requires Valid() && z in zones && LiveChunk(z, zones[z], a)
      modifies this, pages
      ensures Valid()
      ensures old(zones)[z].zoneIndex < |old(zoneArray)| && Abs() == Freed(old(Abs()), z, a)
      ensures forall x :: Live(Abs(), x) <==> old(Live(Abs(), x)) && x != a
    {
      hide HeapOk, Live, LiveChunk, Distinct;
      ghost var h := Abs();
      TakeInOk(h, z, a);
      ZoneSizeKnown(h);
      var zone := zones[z].(freeChunks := [a] + zones[z].freeChunks);
      var zi := zone.zoneIndex;
      if zone.nfree == 0 {
        zoneArray := zoneArray[zi := [z] + zoneArray[zi]];
      }
      zone := zone.(nfree := zone.nfree + 1);
      zones := zones[z := zone];
      assert Abs() == TakeIn(h, z, a);
      if zone.nfree == zone.nmax && zoneArray[zi] != [z] {
        RetireZone(z);
        if zoneFreeCnt > RELEASE_THRESHOLD {
          ReleaseZone();
        }
      }
    }

    /** A zone that has become wholly free, beside others of its index, is kept for reuse. */
    method RetireZone(z: nat)
      requires pages.Valid() && HeapOk(Abs()) && zoneFreeCnt == |zoneFree|
      requires z in zones && zones[z].nfree == zones[z].nmax
      modifies this
      ensures pages.Valid() && HeapOk(Abs()) && zoneFreeCnt == |zoneFree| == |old(zoneFree)| + 1
      ensures old(zones)[z].zoneIndex < |old(zoneArray)| && Abs() == Retire(old(Abs()), z)
      ensures forall x :: Live(Abs(), x) <==> old(Live(Abs(), x))
    {
      hide HeapOk, Live, Erase, Distinct, ZoneOk;
      ghost var h := Abs();
      RetireOk(h, z);
      ZoneSizeKnown(h);
      var zi := zones[z].zoneIndex;
      Position(h, z);
      var i := 0;
      while zoneArray[zi][i] != z
        invariant Abs() == h && zoneFreeCnt == old(zoneFreeCnt)
        invariant i < |zoneArray[zi]| && z !in zoneArray[zi][..i]
        decreases |zoneArray[zi]| - i
      {
        NotLast(zoneArray[zi], z, i);
        i := i + 1;
      }
      EraseAt(zoneArray[zi], i);
      zoneArray := zoneArray[zi := RemoveAt(zoneArray[zi], i)];
      zones := zones - {z};
      zoneFree := [z] + zoneFree;
      zoneFreeCnt := zoneFreeCnt + 1;
      assert Abs() == Retire(h, z);
    }

    static lemma Position(h: Heap, z: nat)
      requires HeapOk(h) && z in h.zones && h.zones[z].nfree == h.zones[z].nmax
      ensures h.zones[z].zoneIndex < NZONES && z in h.arrays[h.zones[z].zoneIndex] && Distinct(h.arrays[h.zones[z].zoneIndex])
    {
      assert ActiveOk(h, z);
      ZoneShape(h.zoneSize, z, h.zones[z]);
      assert ListOk(h, h.zones[z].zoneIndex);
    }

    static lemma NotLast(s: seq<nat>, z: nat, i: nat)
      requires z in s && i < |s| && z !in s[..i] && s[i] != z
      ensures i + 1 < |s| && z !in s[..i + 1]
    {
      assert s == s[..i] + [s[i]] + s[i + 1..];
    }

    /** Too many kept zones: the last one kept goes back to the page allocator. */
    method ReleaseZone()
      requires pages.Valid() && HeapOk(Abs()) && zoneFreeCnt == |zoneFree| == RELEASE_THRESHOLD + 1
      modifies this, pages
      ensures Valid()
      ensures Abs() == WithoutZonePages(old(Abs()), PR.Returned(old(pages.runs), old(zoneFree)[0], zoneSize / PAGE))
      ensures forall x :: Live(Abs(), x) <==> old(Live(Abs(), x))
    {
      hide HeapOk, Live, PR.Canonical;
      ghost var h := Abs();
      var z := zoneFree[0];
      IdlePagesAbsent(h);
      RunsCanonical(h);
      PR.ReturnedExact(pages.runs, z, zoneSize / PAGE);
      zoneFree := zoneFree[1..];
      zoneFreeCnt := zoneFreeCnt - 1;
      Undescribe(z);
      owner := Disowned(owner, z, zoneSize / PAGE);
      pages.FreePages(z, zoneSize / PAGE);
      assert Abs() == WithoutZonePages(h, pages.runs);
      ReturnedPages(h.runs, pages.runs, z, zoneSize / PAGE);
      WithoutZonePagesOk(h, pages.runs);
    }
  }
}
