/** Chunk sizes and zones of src/slab.c: which chunk size serves a request, how a zone is laid out, and
    where its live, freed and never-used chunks are. */
module SlabZones {
  import opened Basics

  /** RT_MM_PAGE_SIZE, MIN_CHUNK_SIZE, NZONES and sizeof(slab_zone) on a 32-bit machine */
  const PAGE: nat := 4096
  const MIN_CHUNK: nat := 8
  const NZONES: nat := 72
  const ZONE_HEADER: nat := 36
  /** ZALLOC_MIN_ZONE_SIZE, ZALLOC_MAX_ZONE_SIZE, ZALLOC_ZONE_LIMIT */
  const MIN_ZONE: nat := 32768
  const MAX_ZONE: nat := 131072
  const ZONE_LIMIT: nat := 16384

  /** (n + g - 1) & ~(g - 1), for g a power of two */
  function RoundUp(n: nat, g: nat): nat
    requires g > 0
  {
    (n + g - 1) / g * g
  }

  // ---------------------------------------------------------------- zoneindex

  /** zoneindex: the index, and the size the request is rounded to. */
  function ZoneIndex(n: nat): (int, nat) {
    if n < 128 then (RoundUp(n, 8) / 8 - 1, RoundUp(n, 8))
    else if n < 256 then (RoundUp(n, 16) / 16 + 7, RoundUp(n, 16))
    else if n < 512 then (RoundUp(n, 32) / 32 + 15, RoundUp(n, 32))
    else if n < 1024 then (RoundUp(n, 64) / 64 + 23, RoundUp(n, 64))
    else if n < 2048 then (RoundUp(n, 128) / 128 + 31, RoundUp(n, 128))
    else if n < 4096 then (RoundUp(n, 256) / 256 + 39, RoundUp(n, 256))
    else if n < 8192 then (RoundUp(n, 512) / 512 + 47, RoundUp(n, 512))
    else if n < 16384 then (RoundUp(n, 1024) / 1024 + 55, RoundUp(n, 1024))
    else (0, n)
  }

  /** The chunk size of index i, by the table at the head of the source. */
  function Chunk(i: nat): nat
    requires i < NZONES
  {
    if i < 16 then 8 * (i + 1)
    else if i < 24 then 16 * (i - 7)
    else if i < 32 then 32 * (i - 15)
    else if i < 40 then 64 * (i - 23)
    else if i < 48 then 128 * (i - 31)
    else if i < 56 then 256 * (i - 39)
    else if i < 64 then 512 * (i - 47)
    else 1024 * (i - 55)
  }

  lemma ChunkStep(i: nat)
    requires i + 1 < NZONES
    ensures Chunk(i) < Chunk(i + 1)
  {
  }

  /** Chunk sizes grow with the index, so a size determines its index. */
  lemma {:induction false} ChunkIncreasing(i: nat, j: nat)
    requires i < j < NZONES
    ensures Chunk(i) < Chunk(j)
    decreases j - i
  {
    ChunkStep(j - 1);
    if i < j - 1 {
      ChunkIncreasing(i, j - 1);
    }
  }

  /** The index is one of the 72, and its chunk size the first that is at least n. */
  ghost predicate Served(n: nat, r: (int, nat)) {
    0 <= r.0 < NZONES && r.1 == Chunk(r.0) && r.1 >= n && (r.0 > 0 ==> Chunk(r.0 - 1) < n)
  }

  lemma ServedBelow128(n: nat)
    requires 1 <= n < 128
    ensures Served(n, ZoneIndex(n))
  {
  }

  lemma ServedBelow256(n: nat)
    requires 128 <= n < 256
    ensures Served(n, ZoneIndex(n))
  {
  }

  lemma ServedBelow512(n: nat)
    requires 256 <= n < 512
    ensures Served(n, ZoneIndex(n))
  {
  }

  lemma ServedBelow1K(n: nat)
    requires 512 <= n < 1024
    ensures Served(n, ZoneIndex(n))
  {
  }

  lemma ServedBelow2K(n: nat)
    requires 1024 <= n < 2048
    ensures Served(n, ZoneIndex(n))
  {
  }

  lemma ServedBelow4K(n: nat)
    requires 2048 <= n < 4096
    ensures Served(n, ZoneIndex(n))
  {
  }

  lemma ServedBelow8K(n: nat)
    requires 4096 <= n < 8192
    ensures Served(n, ZoneIndex(n))
  {
  }

  lemma ServedBelow16K(n: nat)
    requires 8192 <= n < 16384
    ensures Served(n, ZoneIndex(n))
  {
  }

  lemma ZoneIndexChunk(n: nat)
    requires 1 <= n < ZONE_LIMIT
    ensures Served(n, ZoneIndex(n))
  {
    hide ZoneIndex, Chunk;
    if n < 128 {
      ServedBelow128(n);
    } else if n < 256 {
      ServedBelow256(n);
    } else if n < 512 {
      ServedBelow512(n);
    } else if n < 1024 {
      ServedBelow1K(n);
    } else if n < 2048 {
      ServedBelow2K(n);
    } else if n < 4096 {
      ServedBelow4K(n);
    } else if n < 8192 {
      ServedBelow8K(n);
    } else {
      ServedBelow16K(n);
    }
  }

  /** A rounded size has the index it was rounded for. */
  lemma ZoneIndexAgain(i: nat)
    requires i < NZONES && Chunk(i) < ZONE_LIMIT
    ensures ZoneIndex(Chunk(i)) == (i, Chunk(i))
  {
    if i > 0 {
      ChunkIncreasing(0, i);
    }
    ZoneIndexChunk(Chunk(i));
    hide Chunk, ZoneIndex;
    var (j, bytes) := ZoneIndex(Chunk(i));
    if j < i {
      ChunkIncreasing(j, i);
    } else if i < j {
      ChunkIncreasing(i, j);
      if i < j - 1 {
        ChunkIncreasing(i, j - 1);
      }
    }
  }

  /** A request below 16 KB gets an index from 0 to 71 and the size of that index, which is the smallest
      chunk size that holds the request; the rounded size has the same index again. */
  lemma ZoneIndexBestFit(n: nat)
    requires 1 <= n < ZONE_LIMIT
    ensures var (i, bytes) := ZoneIndex(n);
            && 0 <= i < NZONES && bytes == Chunk(i) && bytes >= n
            && (forall j :: 0 <= j < NZONES && Chunk(j) >= n ==> Chunk(j) >= bytes)
            && (bytes < ZONE_LIMIT ==> ZoneIndex(bytes) == (i, bytes))
  {
    ZoneIndexChunk(n);
    hide Chunk, ZoneIndex;
    var (i, bytes) := ZoneIndex(n);
    if bytes < ZONE_LIMIT {
      ZoneIndexAgain(i);
    }
    forall j | 0 <= j < NZONES && Chunk(j) >= n ensures Chunk(j) >= bytes {
      if j < i {
        if j < i - 1 {
          ChunkIncreasing(j, i - 1);
        }
      } else if i < j {
        ChunkIncreasing(i, j);
      }
    }
  }

  /** The size is 0 only for request 0, whose index is no index at all. */
  lemma ZoneIndexZero()
    ensures ZoneIndex(0) == (-1, 0)
  {
  }

  // ---------------------------------------------------------------- zone sizes

  /** zone_size for a heap of limsize bytes, by the loop of rt_system_heap_init */
  method ZoneSize(limsize: nat) returns (zoneSize: nat)
    ensures zoneSize in {MIN_ZONE, 2 * MIN_ZONE, MAX_ZONE}
    ensures zoneSize == MAX_ZONE <==> limsize / 1024 > MAX_ZONE
    ensures zoneSize == MIN_ZONE <==> limsize / 1024 <= 2 * MIN_ZONE
  {
    zoneSize := MIN_ZONE;
    while zoneSize < MAX_ZONE && zoneSize * 2 < limsize / 1024
      invariant zoneSize in {MIN_ZONE, 2 * MIN_ZONE, MAX_ZONE}
      invariant zoneSize > MIN_ZONE ==> zoneSize < limsize / 1024
      decreases MAX_ZONE - zoneSize
    {
      zoneSize := zoneSize * 2;
    }
  }

  predicate ZoneSizeOk(zoneSize: nat) {
    zoneSize in {MIN_ZONE, 2 * MIN_ZONE, MAX_ZONE}
  }

  /** zone_limit */
  function ZoneLimit(zoneSize: nat): nat {
    if zoneSize / 4 > ZONE_LIMIT then ZONE_LIMIT else zoneSize / 4
  }

  predicate PowerOfTwo(n: nat) {
    n == 1 || (n > 1 && n % 2 == 0 && PowerOfTwo(n / 2))
  }

  /** Where the chunks begin: behind the header, aligned to the size of power-of-two chunks. */
  function ChunksBegin(size: nat): nat
    requires size > 0
  {
    if PowerOfTwo(size) then RoundUp(ZONE_HEADER, size) else RoundUp(ZONE_HEADER, MIN_CHUNK)
  }

  // ---------------------------------------------------------------- the same on bits

  /** a | b */
  function BitOr(a: nat, b: nat): nat {
    if a == 0 then b
    else if b == 0 then a
    else 2 * BitOr(a / 2, b / 2) + if a % 2 == 1 || b % 2 == 1 then 1 else 0
  }

  /** a & ~b */
  function BitAndNot(a: nat, b: nat): nat {
    if a == 0 then 0 else 2 * BitAndNot(a / 2, b / 2) + if a % 2 == 1 && b % 2 == 0 then 1 else 0
  }

  lemma {:induction false} OrSelf(a: nat)
    ensures BitOr(a, a) == a
  {
    if a > 0 {
      OrSelf(a / 2);
    }
  }

  lemma {:induction false} AndNotZero(a: nat)
    ensures BitAndNot(a, 0) == a
  {
    if a > 0 {
      AndNotZero(a / 2);
    }
  }

  /** The test on the bits of a size finds exactly the powers of two. */
  lemma {:induction false} PowerOfTwoBits(size: nat)
    requires size > 0
    ensures BitOr(size, size - 1) + 1 == 2 * size <==> PowerOfTwo(size)
  {
    var m := size / 2;
    if size % 2 == 0 {
      PowerOfTwoBits(m);
      assert size == 2 * m && (size - 1) / 2 == m - 1;
    } else if size > 1 {
      assert size == 2 * m + 1 && (size - 1) / 2 == m;
      OrSelf(m);
    }
  }

  /** Masking off the low bits rounds down to a multiple of a power of two. */
  lemma {:induction false} MaskRounds(a: nat, g: nat)
    requires PowerOfTwo(g)
    ensures BitAndNot(a, g - 1) == a / g * g
  {
    if g == 1 {
      AndNotZero(a);
    } else {
      var h := g / 2;
      assert g == 2 * h && (g - 1) / 2 == h - 1;
      if a == 0 {
        ZeroDiv(g);
      } else {
        MaskRounds(a / 2, h);
        HalfDiv(a, h);
        DoubleMul(a / g, h);
      }
    }
  }

  lemma ZeroDiv(g: nat)
    requires g > 0
    ensures 0 / g * g == 0
  {
  }

  lemma HalfDiv(a: nat, h: nat)
    requires h > 0
    ensures (a / 2) / h == a / (2 * h)
  {
    var q, b := (a / 2) / h, a / 2;
    DivMul(b, h);
    var r := b - q * h;
    assert 0 <= r < h;
    DoubleMul(q, h);
    assert a == q * (2 * h) + (2 * r + a % 2);
    DivUnique(a, 2 * h, q);
  }

  lemma DivUnique(x: nat, g: nat, q: nat)
    requires g > 0 && q * g <= x < q * g + g
    ensures x / g == q
  {
    var d := x / g;
    DivMul(x, g);
    if d < q {
      MulLe(d + 1, q, g);
    } else if q < d {
      MulLe(q + 1, d, g);
    }
  }

  lemma DoubleMul(q: int, h: int)
    ensures q * (2 * h) == 2 * (q * h)
  {
  }

  /** RoundUp is the source's masking. */
  lemma RoundUpBits(n: nat, g: nat)
    requires PowerOfTwo(g)
    ensures g > 0 && BitAndNot(n + g - 1, g - 1) == RoundUp(n, g)
  {
    MaskRounds(n + g - 1, g);
  }

  /** ChunksBegin as the source computes it. */
  lemma ChunksBeginBits(size: nat)
    requires size > 0
    ensures ChunksBegin(size) ==
            if BitOr(size, size - 1) + 1 == 2 * size then BitAndNot(ZONE_HEADER + size - 1, size - 1)
            else BitAndNot(ZONE_HEADER + MIN_CHUNK - 1, MIN_CHUNK - 1)
  {
    PowerOfTwoBits(size);
    if PowerOfTwo(size) {
      RoundUpBits(ZONE_HEADER, size);
    }
    assert PowerOfTwo(4) && PowerOfTwo(MIN_CHUNK);
    RoundUpBits(ZONE_HEADER, MIN_CHUNK);
  }

  lemma RoundUpBounds(n: nat, g: nat)
    requires g > 0
    ensures n <= RoundUp(n, g) < n + g && RoundUp(n, g) % g == 0
  {
    var q := (n + g - 1) / g;
    assert (n + g - 1) == q * g + (n + g - 1) % g;
    ModMul(q, g);
  }

  lemma ModMul(q: nat, g: nat)
    requires g > 0
    ensures (q * g) % g == 0
  {
    var x := q * g;
    var d := x / g;
    DivMul(x, g);
    if d < q {
      MulLe(d + 1, q, g);
    } else {
      MulLe(q, d, g);
    }
    assert x % g == x - d * g;
  }

  /** z_nmax */
  function ChunksMax(zoneSize: nat, size: nat): int
    requires size > 0
  {
    (zoneSize - ChunksBegin(size)) / size
  }

  /** A zone always has room for at least two chunks, and they all lie inside it behind its header. */
  lemma ChunksFit(zoneSize: nat, size: nat)
    requires ZoneSizeOk(zoneSize) && MIN_CHUNK <= size <= zoneSize / 4
    ensures ChunksMax(zoneSize, size) >= 2
    ensures ZONE_HEADER <= ChunksBegin(size) && ChunksBegin(size) + ChunksMax(zoneSize, size) * size <= zoneSize
    ensures PowerOfTwo(size) ==> ChunksBegin(size) % size == 0
  {
    RoundUpBounds(ZONE_HEADER, size);
    RoundUpBounds(ZONE_HEADER, MIN_CHUNK);
    var room, n := zoneSize - ChunksBegin(size), ChunksMax(zoneSize, size);
    assert room >= 2 * size;
    DivMul(room, size);
    AtLeastTwo(n, size, room);
  }

  lemma AtLeastTwo(n: int, size: nat, room: int)
    requires room >= 2 * size && room < n * size + size && size > 0
    ensures n >= 2
  {
    if n < 2 {
      MulLe(n + 1, 2, size);
    }
  }

  lemma DivMul(a: nat, b: nat)
    requires b > 0
    ensures a / b * b <= a < a / b * b + b
  {
  }

  lemma MulLe(a: int, b: int, c: nat)
    requires a <= b
    ensures a * c <= b * c
  {
  }

  // ---------------------------------------------------------------- zones

  /** struct slab_zone; z_freechunk is the list of the freed chunks' addresses. */
  datatype Zone = Zone(
    nfree: int, nmax: int, base: nat, uindex: nat, chunkSize: nat, zoneIndex: nat, freeChunks: seq<nat>)

  /** The address of chunk i of the zone that begins at page z. */
  function ChunkAddr(z: nat, zone: Zone, i: nat): nat {
    z * PAGE + zone.base + i * zone.chunkSize
  }

  /** Address a is a chunk that has been handed out before. */
  ghost predicate UsedOnce(z: nat, zone: Zone, a: nat) {
    exists i :: 0 <= i <= zone.uindex && a == ChunkAddr(z, zone, i)
  }

  /** Address a is a chunk in the hands of a caller. */
  ghost predicate LiveChunk(z: nat, zone: Zone, a: nat) {
    UsedOnce(z, zone, a) && a !in zone.freeChunks
  }

  ghost predicate ZoneOk(zoneSize: nat, z: nat, zone: Zone) {
    && zone.zoneIndex < NZONES && zone.chunkSize == Chunk(zone.zoneIndex) && zone.chunkSize <= ZoneLimit(zoneSize)
    && zone.base == ChunksBegin(zone.chunkSize) && zone.nmax == ChunksMax(zoneSize, zone.chunkSize)
    && zone.uindex < zone.nmax
    && zone.nfree == zone.nmax - 1 - zone.uindex + |zone.freeChunks|
    && Distinct(zone.freeChunks) && forall k :: 0 <= k < |zone.freeChunks| ==> UsedOnce(z, zone, zone.freeChunks[k])
  }

  lemma MulInjective(i: nat, j: nat, c: nat)
    requires c > 0 && i < j
    ensures i * c + c <= j * c
  {
    MulLe(i + 1, j, c);
  }

  /** Chunks of one zone do not overlap, and each lies inside the zone behind its header. */
  lemma ChunkInZone(zoneSize: nat, z: nat, zone: Zone, i: nat)
    requires ZoneSizeOk(zoneSize) && ZoneOk(zoneSize, z, zone) && i < zone.nmax
    ensures z * PAGE + ZONE_HEADER <= ChunkAddr(z, zone, i)
    ensures ChunkAddr(z, zone, i) + zone.chunkSize <= z * PAGE + zoneSize
  {
    ZoneShape(zoneSize, z, zone);
    ChunksFit(zoneSize, zone.chunkSize);
    hide UsedOnce, ChunksBegin, ChunksMax, Chunk, Distinct;
    var c := zone.chunkSize;
    MulLe(i + 1, zone.nmax, c);
    MulLe(0, i, c);
    assert (i + 1) * c == i * c + c;
  }

  lemma ZoneShape(zoneSize: nat, z: nat, zone: Zone)
    requires ZoneSizeOk(zoneSize) && ZoneOk(zoneSize, z, zone)
    ensures MIN_CHUNK <= zone.chunkSize <= zoneSize / 4 && zone.nmax >= 2
  {
    if zone.zoneIndex > 0 {
      ChunkIncreasing(0, zone.zoneIndex);
    }
    ChunksFit(zoneSize, zone.chunkSize);
  }

  lemma ChunksApart(zoneSize: nat, z: nat, zone: Zone, i: nat, j: nat)
    requires ZoneSizeOk(zoneSize) && ZoneOk(zoneSize, z, zone) && i < j
    ensures ChunkAddr(z, zone, i) + zone.chunkSize <= ChunkAddr(z, zone, j)
  {
    ZoneShape(zoneSize, z, zone);
    MulInjective(i, j, zone.chunkSize);
  }

  /** Every chunk of the zone is exactly one of live, freed and never used. */
  lemma ChunksPartition(zoneSize: nat, z: nat, zone: Zone, i: nat)
    requires ZoneSizeOk(zoneSize) && ZoneOk(zoneSize, z, zone) && i < zone.nmax
    ensures var a := ChunkAddr(z, zone, i);
            if i > zone.uindex then !LiveChunk(z, zone, a) && a !in zone.freeChunks
            else LiveChunk(z, zone, a) <==> a !in zone.freeChunks
  {
    var a := ChunkAddr(z, zone, i);
    if i > zone.uindex {
      forall j | 0 <= j <= zone.uindex ensures ChunkAddr(z, zone, j) != a {
        ChunksApart(zoneSize, z, zone, j, i);
        ZoneShape(zoneSize, z, zone);
      }
      forall k | 0 <= k < |zone.freeChunks| ensures zone.freeChunks[k] != a {
        assert UsedOnce(z, zone, zone.freeChunks[k]);
      }
    }
  }

  // ---------------------------------------------------------------- what happens to a zone

  /** A new zone, with its first chunk handed out. */
  function NewZone(zoneSize: nat, zi: nat): Zone
    requires zi < NZONES
  {
    var size := Chunk(zi);
    Zone(ChunksMax(zoneSize, size) - 1, ChunksMax(zoneSize, size), ChunksBegin(size), 0, size, zi, [])
  }

  /** The chunk handed out next: a never-used one as long as there are any, then the last freed one. */
  function NextChunk(z: nat, zone: Zone): nat
    requires zone.uindex + 1 != zone.nmax || zone.freeChunks != []
  {
    if zone.uindex + 1 != zone.nmax then ChunkAddr(z, zone, zone.uindex + 1) else zone.freeChunks[0]
  }

  function Handed(zone: Zone): Zone
    requires zone.uindex + 1 != zone.nmax || zone.freeChunks != []
  {
    if zone.uindex + 1 != zone.nmax then zone.(nfree := zone.nfree - 1, uindex := zone.uindex + 1)
    else zone.(nfree := zone.nfree - 1, freeChunks := zone.freeChunks[1..])
  }

  function TakenBack(zone: Zone, a: nat): Zone {
    zone.(nfree := zone.nfree + 1, freeChunks := [a] + zone.freeChunks)
  }

  lemma NewZoneOk(zoneSize: nat, zi: nat, z: nat)
    requires ZoneSizeOk(zoneSize) && zi < NZONES && Chunk(zi) <= ZoneLimit(zoneSize)
    ensures ZoneOk(zoneSize, z, NewZone(zoneSize, zi)) && NewZone(zoneSize, zi).nfree > 0
    ensures forall a :: LiveChunk(z, NewZone(zoneSize, zi), a) <==> a == ChunkAddr(z, NewZone(zoneSize, zi), 0)
  {
    if zi > 0 {
      ChunkIncreasing(0, zi);
    }
    ChunksFit(zoneSize, Chunk(zi));
    var zone := NewZone(zoneSize, zi);
    assert UsedOnce(z, zone, ChunkAddr(z, zone, 0));
  }

  /** A zone with free chunks can hand one out: it was not live, and is the only one that now is. */
  lemma HandedOk(zoneSize: nat, z: nat, zone: Zone)
    requires ZoneSizeOk(zoneSize) && ZoneOk(zoneSize, z, zone) && zone.nfree > 0
    ensures zone.uindex + 1 != zone.nmax || zone.freeChunks != []
    ensures ZoneOk(zoneSize, z, Handed(zone)) && !LiveChunk(z, zone, NextChunk(z, zone))
    ensures forall a :: LiveChunk(z, Handed(zone), a) <==> LiveChunk(z, zone, a) || a == NextChunk(z, zone)
  {
    var zone', c := Handed(zone), NextChunk(z, zone);
    forall i ensures ChunkAddr(z, zone', i) == ChunkAddr(z, zone, i) {
    }
    if zone.uindex + 1 != zone.nmax {
      ChunksPartition(zoneSize, z, zone, zone.uindex + 1);
      forall a | UsedOnce(z, zone', a) ensures UsedOnce(z, zone, a) || a == c {
        var i :| 0 <= i <= zone'.uindex && a == ChunkAddr(z, zone', i);
        assert i <= zone.uindex ==> a == ChunkAddr(z, zone, i);
      }
      forall a | UsedOnce(z, zone, a) || a == c ensures UsedOnce(z, zone', a) {
        var i :| 0 <= i <= zone.uindex + 1 && a == ChunkAddr(z, zone, i);
        assert a == ChunkAddr(z, zone', i);
      }
    } else {
      Behead(zone.freeChunks);
      forall a ensures UsedOnce(z, zone', a) <==> UsedOnce(z, zone, a) {
        SameChunks(z, zone, zone', a);
      }
      assert UsedOnce(z, zone, zone.freeChunks[0]);
    }
  }

  lemma SameChunks(z: nat, zone: Zone, zone': Zone, a: nat)
    requires zone'.uindex == zone.uindex && zone'.base == zone.base && zone'.chunkSize == zone.chunkSize
    ensures UsedOnce(z, zone', a) <==> UsedOnce(z, zone, a)
  {
    if UsedOnce(z, zone, a) {
      var i :| 0 <= i <= zone.uindex && a == ChunkAddr(z, zone, i);
      assert a == ChunkAddr(z, zone', i);
    }
    if UsedOnce(z, zone', a) {
      var i :| 0 <= i <= zone'.uindex && a == ChunkAddr(z, zone', i);
      assert a == ChunkAddr(z, zone, i);
    }
  }

  /** Taking a live chunk back makes exactly that chunk not live. */
  lemma TakenBackOk(zoneSize: nat, z: nat, zone: Zone, a: nat)
    requires ZoneSizeOk(zoneSize) && ZoneOk(zoneSize, z, zone) && LiveChunk(z, zone, a)
    ensures ZoneOk(zoneSize, z, TakenBack(zone, a))
    ensures forall b :: LiveChunk(z, TakenBack(zone, a), b) <==> LiveChunk(z, zone, b) && b != a
  {
    var zone' := TakenBack(zone, a);
    forall b ensures UsedOnce(z, zone', b) <==> UsedOnce(z, zone, b) {
      SameChunks(z, zone, zone', b);
    }
  }

  /** Freeing the chunk just handed out puts it in front of the freed ones; handing out takes it from
      there only once no chunk is never-used. */
  lemma HandedAgain(z: nat, zone: Zone, a: nat)
    requires zone.uindex + 1 == zone.nmax
    ensures NextChunk(z, TakenBack(zone, a)) == a && Handed(TakenBack(zone, a)) == zone
  {
    assert TakenBack(zone, a).freeChunks[1..] == zone.freeChunks;
  }

  // ---------------------------------------------------------------- counting

  lemma {:induction false} DistinctSize(s: seq<nat>, all: set<nat>)
    requires Distinct(s) && forall k :: 0 <= k < |s| ==> s[k] in all
    ensures |s| <= |all| && (|s| == |all| ==> forall x :: x in all ==> x in s)
  {
    if s != [] {
      var t := s[1..];
      Behead(s);
      forall k | 0 <= k < |t| ensures t[k] in all - {s[0]} {
        assert t[k] in t && t[k] == s[k + 1];
      }
      DistinctSize(t, all - {s[0]});
      assert |all - {s[0]}| == |all| - 1;
    }
  }

  ghost function UsedChunks(z: nat, zone: Zone, n: nat): set<nat> {
    if n == 0 then {} else UsedChunks(z, zone, n - 1) + {ChunkAddr(z, zone, n - 1)}
  }

  lemma {:induction false} UsedChunksSize(zoneSize: nat, z: nat, zone: Zone, n: nat)
    requires ZoneSizeOk(zoneSize) && ZoneOk(zoneSize, z, zone)
    ensures |UsedChunks(z, zone, n)| == n
    ensures forall i :: 0 <= i < n ==> ChunkAddr(z, zone, i) in UsedChunks(z, zone, n)
    ensures forall a :: a in UsedChunks(z, zone, n) ==> exists i :: 0 <= i < n && a == ChunkAddr(z, zone, i)
  {
    if n > 0 {
      UsedChunksSize(zoneSize, z, zone, n - 1);
      forall i | 0 <= i < n - 1 ensures ChunkAddr(z, zone, i) != ChunkAddr(z, zone, n - 1) {
        ChunksApart(zoneSize, z, zone, i, n - 1);
        ZoneShape(zoneSize, z, zone);
      }
    }
  }

  /** A zone whose free count has reached its maximum has no live chunk: it can be given away. */
  lemma AllFree(zoneSize: nat, z: nat, zone: Zone, a: nat)
    requires ZoneSizeOk(zoneSize) && ZoneOk(zoneSize, z, zone) && zone.nfree == zone.nmax
    ensures !LiveChunk(z, zone, a)
  {
    var all := UsedChunks(z, zone, zone.uindex + 1);
    UsedChunksSize(zoneSize, z, zone, zone.uindex + 1);
    forall k | 0 <= k < |zone.freeChunks| ensures zone.freeChunks[k] in all {
      assert UsedOnce(z, zone, zone.freeChunks[k]);
    }
    DistinctSize(zone.freeChunks, all);
  }

  /** The free count never exceeds the maximum. */
  lemma FreeAtMost(zoneSize: nat, z: nat, zone: Zone)
    requires ZoneSizeOk(zoneSize) && ZoneOk(zoneSize, z, zone)
    ensures 0 <= zone.nfree <= zone.nmax
  {
    var all := UsedChunks(z, zone, zone.uindex + 1);
    UsedChunksSize(zoneSize, z, zone, zone.uindex + 1);
    forall k | 0 <= k < |zone.freeChunks| ensures zone.freeChunks[k] in all {
      assert UsedOnce(z, zone, zone.freeChunks[k]);
    }
    DistinctSize(zone.freeChunks, all);
  }
}
