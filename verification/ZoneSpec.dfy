/** One slab zone: chunks of one size, those handed out, those returned and those never used yet. */
module ZoneSpec {
  import opened Arith

  const PAGE: int := 4096       // RT_MM_PAGE_SIZE
  const NZONES: int := 72
  const ZONE_HEADER: int := 36  // sizeof(slab_zone)
  const MIN_CHUNK: int := 8

  // ---------- zoneindex ----------

  /** `n` rounded up to a multiple of `step`. */
  function RoundUp(n: int, step: int): int
    requires step > 0
  {
    (n + step - 1) / step * step
  }

  /** Chunk size of the zones with index `zi`. */
  function ChunkOf(zi: int): int {
    if zi < 16 then (zi + 1) * 8
    else if zi < 24 then (zi - 7) * 16
    else if zi < 32 then (zi - 15) * 32
    else if zi < 40 then (zi - 23) * 64
    else if zi < 48 then (zi - 31) * 128
    else if zi < 56 then (zi - 39) * 256
    else if zi < 64 then (zi - 47) * 512
    else (zi - 55) * 1024
  }

  lemma {:induction false} ChunkMono(y: int, z: int)
    requires 0 <= y <= z < NZONES
    ensures ChunkOf(y) <= ChunkOf(z)
    decreases z - y
  {
    if y < z { ChunkMono(y, z - 1); }
  }

  /** `zi` is the lowest index whose chunks hold `bytes`. */
  ghost predicate BestIndex(bytes: int, zi: int, n: int) {
    && 0 <= zi < NZONES && n == ChunkOf(zi) && bytes <= n
    && forall y :: 0 <= y < NZONES && bytes <= ChunkOf(y) ==> zi <= y
  }

  lemma Best(bytes: int, zi: int, n: int)
    requires 0 <= zi < NZONES && n == ChunkOf(zi) && bytes <= n && (zi == 0 || ChunkOf(zi - 1) < bytes)
    ensures BestIndex(bytes, zi, n)
  {
    forall y | 0 <= y < NZONES && bytes <= ChunkOf(y) ensures zi <= y {
      if y < zi { ChunkMono(y, zi - 1); }
    }
  }

  lemma RoundUpIs(n: int, step: int, q: int)
    requires n > 0 && step > 0 && q == (n + step - 1) / step
    ensures RoundUp(n, step) == q * step && (q - 1) * step < n <= q * step && (q * step) / step == q
  {
    DivUnique(q * step, q, step, 0);
    Expand(q, step);
  }

  lemma Expand(q: int, step: int)
    ensures (q - 1) * step == q * step - step
  {
  }

  /** One band of zoneindex: `step` byte chunks, indices offset by `shift`. */
  method Band(bytes: int, step: int, shift: int) returns (zi: int, n: int, ghost q: int)
    requires bytes > 0 && step > 0
    ensures n == q * step && zi == q + shift && (q - 1) * step < bytes <= q * step
  {
    n := RoundUp(bytes, step);
    q := (bytes + step - 1) / step;
    RoundUpIs(bytes, step, q);
    zi := n / step + shift;
  }

  /** zoneindex: the index for a request of `n` bytes, and the request rounded to that index's chunk
      size. A request it panics about comes back as index 0. */
  method ZoneIndex(bytes: int) returns (zi: int, n: int)
    requires bytes > 0
    ensures bytes < 16384 ==> BestIndex(bytes, zi, n)
    ensures bytes >= 16384 ==> zi == 0 && n == bytes
  {
    ghost var q: int;
    if bytes < 128 {
      zi, n, q := Band(bytes, 8, -1);
    } else if bytes < 256 {
      zi, n, q := Band(bytes, 16, 7);
    } else if bytes < 8192 {
      if bytes < 512 {
        zi, n, q := Band(bytes, 32, 15);
      } else if bytes < 1024 {
        zi, n, q := Band(bytes, 64, 23);
      } else if bytes < 2048 {
        zi, n, q := Band(bytes, 128, 31);
      } else if bytes < 4096 {
        zi, n, q := Band(bytes, 256, 39);
      } else {
        zi, n, q := Band(bytes, 512, 47);
      }
    } else if bytes < 16384 {
      zi, n, q := Band(bytes, 1024, 55);
    } else {
      return 0, bytes;
    }
    Best(bytes, zi, n);
  }

  // ---------- one zone ----------

  /** struct slab_zone, without its list link. Pointers are byte offsets from heap_start. */
  datatype Zone = Zone(nfree: int, nmax: int, baseptr: int, uindex: int, chunksize: int, zoneindex: int,
    freechunk: seq<int>)

  /** Address of chunk `k`. */
  function Chunk(z: Zone, k: int): int {
    z.baseptr + k * z.chunksize
  }

  ghost predicate IsChunk(z: Zone, a: int) {
    exists k :: 0 <= k <= z.uindex && a == Chunk(z, k)
  }

  ghost predicate NoRepeat(s: seq<int>) {
    forall i, j :: 0 <= i < j < |s| ==> s[i] != s[j]
  }

  /** Counters and free list of a zone in use agree. */
  ghost predicate ZoneOk(z: Zone) {
    && z.chunksize > 0 && 0 <= z.uindex < z.nmax
    && z.nfree == z.nmax - 1 - z.uindex + |z.freechunk|
    && NoRepeat(z.freechunk)
    && (forall i :: 0 <= i < |z.freechunk| ==> IsChunk(z, z.freechunk[i]))
  }

  /** A chunk handed out and not yet returned. */
  ghost predicate LiveChunk(z: Zone, a: int) {
    IsChunk(z, a) && a !in z.freechunk
  }

  lemma ChunkInjective(z: Zone, j: int, k: int)
    requires z.chunksize > 0 && j != k
    ensures j < k ==> Chunk(z, j) + z.chunksize <= Chunk(z, k)
    ensures Chunk(z, j) != Chunk(z, k)
  {
    if j < k {
      MulAtLeast(k - j, z.chunksize);
      assert (k - j) * z.chunksize == k * z.chunksize - j * z.chunksize;
    } else {
      MulAtLeast(j - k, z.chunksize);
      assert (j - k) * z.chunksize == j * z.chunksize - k * z.chunksize;
    }
  }

  /** Taking a chunk: a never used one as long as there is one, else the last one returned. */
  function TakeChunk(z: Zone): (Zone, int)
    requires z.uindex + 1 == z.nmax ==> z.freechunk != []
  {
    if z.uindex + 1 != z.nmax then
      (z.(nfree := z.nfree - 1, uindex := z.uindex + 1), Chunk(z, z.uindex + 1))
    else
      (z.(nfree := z.nfree - 1, freechunk := z.freechunk[1..]), z.freechunk[0])
  }

  function PutChunk(z: Zone, a: int): Zone {
    z.(nfree := z.nfree + 1, freechunk := [a] + z.freechunk)
  }

  /** A chunk taken was not live, and is now the only new live one. */
  lemma TakeChunkOk(z: Zone)
    requires ZoneOk(z) && z.nfree > 0
    ensures z.uindex + 1 == z.nmax ==> z.freechunk != []
    ensures var (z', a) := TakeChunk(z);
      && ZoneOk(z') && !LiveChunk(z, a) && IsChunk(z', a)
      && forall x :: LiveChunk(z', x) <==> LiveChunk(z, x) || x == a
  {
    var (z', a) := TakeChunk(z);
    if z.uindex + 1 != z.nmax {
      FreshChunk(z, z', a);
    } else {
      assert z.freechunk == [a] + z'.freechunk;
      assert forall i :: 0 <= i < |z'.freechunk| ==> z'.freechunk[i] == z.freechunk[i + 1];
      assert a !in z'.freechunk;
      SameChunks(z, z');
      assert IsChunk(z, z.freechunk[0]);
    }
  }

  lemma SameChunks(z: Zone, z': Zone)
    requires z'.baseptr == z.baseptr && z'.chunksize == z.chunksize && z'.uindex == z.uindex
    ensures forall x :: IsChunk(z', x) <==> IsChunk(z, x)
  {
    forall x ensures IsChunk(z', x) <==> IsChunk(z, x) {
      if IsChunk(z, x) { var k :| 0 <= k <= z.uindex && x == Chunk(z, k); assert x == Chunk(z', k); }
      if IsChunk(z', x) { var k :| 0 <= k <= z'.uindex && x == Chunk(z', k); assert x == Chunk(z, k); }
    }
  }

  lemma FreshChunk(z: Zone, z': Zone, a: int)
    requires ZoneOk(z) && z' == z.(nfree := z.nfree - 1, uindex := z.uindex + 1) && a == Chunk(z, z.uindex + 1)
    ensures forall x :: IsChunk(z', x) <==> IsChunk(z, x) || x == a
    ensures !IsChunk(z, a) && a !in z.freechunk
  {
    forall x ensures IsChunk(z', x) <==> IsChunk(z, x) || x == a {
      if IsChunk(z, x) { var k :| 0 <= k <= z.uindex && x == Chunk(z, k); assert x == Chunk(z', k); }
      if IsChunk(z', x) { var k :| 0 <= k <= z'.uindex && x == Chunk(z', k); assert x == Chunk(z, k); }
      if x == a { assert x == Chunk(z', z'.uindex); }
    }
    if IsChunk(z, a) {
      var k :| 0 <= k <= z.uindex && a == Chunk(z, k);
      ChunkInjective(z, k, z.uindex + 1);
    }
    assert a in z.freechunk ==> IsChunk(z, a);
  }

  /** Returning a live chunk makes it the only one no longer live. */
  lemma PutChunkOk(z: Zone, a: int)
    requires ZoneOk(z) && LiveChunk(z, a)
    ensures ZoneOk(PutChunk(z, a))
    ensures forall x :: LiveChunk(PutChunk(z, a), x) <==> LiveChunk(z, x) && x != a
  {
    var z' := PutChunk(z, a);
    SameChunks(z, z');
    assert forall i :: 0 < i < |z'.freechunk| ==> z'.freechunk[i] == z.freechunk[i - 1];
  }

  // ---------- counting ----------

  /** Addresses of the chunks below index `k`. */
  ghost function ChunkSet(z: Zone, k: int): (s: set<int>)
    decreases k
  {
    if k <= 0 then {} else ChunkSet(z, k - 1) + {Chunk(z, k - 1)}
  }

  lemma {:induction false} ChunkSetIs(z: Zone, k: int)
    requires z.chunksize > 0 && k >= 0
    ensures forall x :: x in ChunkSet(z, k) <==> exists j :: 0 <= j < k && x == Chunk(z, j)
    ensures |ChunkSet(z, k)| == k
    decreases k
  {
    if k > 0 {
      ChunkSetIs(z, k - 1);
      var a := Chunk(z, k - 1);
      if a in ChunkSet(z, k - 1) {
        var j :| 0 <= j < k - 1 && a == Chunk(z, j);
        ChunkInjective(z, j, k - 1);
      }
      forall x ensures x in ChunkSet(z, k) <==> exists j :: 0 <= j < k && x == Chunk(z, j) {
        if x == a { assert x == Chunk(z, k - 1); }
      }
    }
  }

  lemma {:induction false} SeqSet(s: seq<int>)
    requires NoRepeat(s)
    ensures |set x | x in s| == |s|
  {
    if s != [] {
      SeqSet(s[1..]);
      assert s == [s[0]] + s[1..] && s[0] !in s[1..];
      assert (set x | x in s) == (set x | x in s[1..]) + {s[0]};
    }
  }

  lemma SubsetFull<T>(a: set<T>, b: set<T>)
    requires a <= b && |a| >= |b|
    ensures a == b
  {
    assert b == a + (b - a) && |b| == |a| + |b - a|;
  }

  /** A zone counts as wholly free exactly when no chunk of it is live. */
  lemma WhollyFree(z: Zone)
    requires ZoneOk(z)
    ensures z.nfree <= z.nmax
    ensures z.nfree == z.nmax <==> forall x :: !LiveChunk(z, x)
  {
    var all, free := ChunkSet(z, z.uindex + 1), set x | x in z.freechunk;
    ChunkSetIs(z, z.uindex + 1);
    SeqSet(z.freechunk);
    forall x ensures x in all <==> IsChunk(z, x) {
      if IsChunk(z, x) { var k :| 0 <= k <= z.uindex && x == Chunk(z, k); assert 0 <= k < z.uindex + 1; }
    }
    assert free <= all;
    CardLe(free, all);
    if z.nfree == z.nmax {
      SubsetFull(free, all);
    } else if forall x :: !LiveChunk(z, x) {
      forall x | x in all ensures x in free { assert IsChunk(z, x) && !LiveChunk(z, x); }
      CardLe(all, free);
    }
  }

  lemma CardLe<T>(a: set<T>, b: set<T>)
    requires a <= b
    ensures |a| <= |b|
  {
    assert b == a + (b - a);
  }

  // ---------- where a zone lies ----------

  /** Chunk sizes that are powers of two. */
  predicate PowerOfTwo(n: int) {
    n == 8 || n == 16 || n == 32 || n == 64 || n == 128 || n == 256 || n == 512 || n == 1024 || n == 2048
    || n == 4096 || n == 8192 || n == 16384
  }

  /** The bit test rt_malloc uses recognises exactly the powers of two. */
  lemma BitTest(n: bv32)
    requires 8 <= n <= 16384
    ensures (n | (n - 1)) + 1 == n << 1 <==>
      n == 8 || n == 16 || n == 32 || n == 64 || n == 128 || n == 256 || n == 512 || n == 1024 || n == 2048
      || n == 4096 || n == 8192 || n == 16384
  {
  }

  /** Offset of the first chunk: behind the zone header, aligned to the chunk size if that is a power of two. */
  function Offset(size: int): int {
    if PowerOfTwo(size) then RoundUp(ZONE_HEADER, size) else RoundUp(ZONE_HEADER, MIN_CHUNK)
  }

  predicate ZoneSizeOk(zoneSize: int) {
    zoneSize == 0x8000 || zoneSize == 0x10000 || zoneSize == 0x20000
  }

  /** A zone just carved at page `z`, its first chunk handed out. */
  function NewZone(z: nat, zi: int, size: int, zoneSize: int): Zone
    requires size > 0
  {
    var nmax := (zoneSize - Offset(size)) / size;
    Zone(nmax - 1, nmax, z * PAGE + Offset(size), 0, size, zi, [])
  }

  /** A zone lies where it was carved and has the chunk size of its index. */
  ghost predicate InPlace(z: nat, r: Zone, zoneSize: int) {
    && 0 <= r.zoneindex < NZONES && r.chunksize == ChunkOf(r.zoneindex) && 0 < r.chunksize <= zoneSize / 4
    && r.baseptr == z * PAGE + Offset(r.chunksize) && r.nmax == (zoneSize - Offset(r.chunksize)) / r.chunksize
  }

  lemma OffsetBounds(zi: int)
    requires 0 <= zi < NZONES
    ensures ZONE_HEADER <= Offset(ChunkOf(zi)) <= ChunkOf(zi) + 64
  {
    var size := ChunkOf(zi);
    if PowerOfTwo(size) && size >= 64 {
      RoundUpIs(ZONE_HEADER, size, 1);
    }
  }

  /** A new zone has room for at least two chunks, and one is live. */
  lemma NewZoneOk(z: nat, zi: int, zoneSize: int)
    requires 0 <= zi < NZONES && ZoneSizeOk(zoneSize) && 0 < ChunkOf(zi) <= zoneSize / 4
    ensures var r := NewZone(z, zi, ChunkOf(zi), zoneSize);
      && ZoneOk(r) && InPlace(z, r, zoneSize) && r.nfree > 0
      && forall x :: LiveChunk(r, x) <==> x == r.baseptr
  {
    var size := ChunkOf(zi);
    var r := NewZone(z, zi, size, zoneSize);
    OffsetBounds(zi);
    AtLeastTwo(zoneSize - Offset(size), size);
    assert Chunk(r, 0) == r.baseptr;
  }

  lemma AtLeastTwo(n: int, d: int)
    requires d > 0 && n >= 2 * d
    ensures n / d >= 2
  {
    var q, r := n / d, n % d;
    assert n == q * d + r && r < d;
    if q <= 1 { MulOrder(q, 1, d); }
  }

  /** Every chunk of a zone lies behind the zone header and inside the zone's pages. */
  lemma ChunkInside(z: nat, r: Zone, zoneSize: int, a: int)
    requires InPlace(z, r, zoneSize) && ZoneOk(r) && IsChunk(r, a) && ZoneSizeOk(zoneSize)
    ensures z * PAGE + ZONE_HEADER <= a && a + r.chunksize <= z * PAGE + zoneSize
    ensures z <= a / PAGE < z + zoneSize / PAGE
  {
    var k :| 0 <= k <= r.uindex && a == Chunk(r, k);
    OffsetBounds(r.zoneindex);
    Product(k, r.chunksize, zoneSize - Offset(r.chunksize), r.nmax);
    PageOf(a, z, zoneSize);
  }

  lemma Product(k: int, c: int, n: int, m: int)
    requires 0 <= k < m && c > 0 && n > 0 && m == n / c
    ensures 0 <= k * c && k * c + c <= n
  {
    assert n == m * c + n % c;
    MulOrder(k + 1, m, c);
    assert (k + 1) * c == k * c + c;
    MulOrder(0, k, c);
  }

  lemma PageOf(a: int, z: nat, zoneSize: int)
    requires ZoneSizeOk(zoneSize) && z * PAGE <= a < z * PAGE + zoneSize
    ensures z <= a / PAGE < z + zoneSize / PAGE
  {
  }

  lemma ModShift(x: int, m: int, c: int)
    requires c > 0
    ensures (x + m * c) % c == x % c
  {
    var q, r := x / c, x % c;
    assert x + m * c == (q + m) * c + r;
    DivUnique(x + m * c, q + m, c, r);
  }

  /** Chunks of a power-of-two size are aligned to their size exactly when their zone is; zones are only page
      aligned, as the start `base` of the heap is, so chunks above the page size need not be. */
  lemma NaturalAlignment(base: nat, z: nat, r: Zone, zoneSize: int, k: int)
    requires InPlace(z, r, zoneSize) && PowerOfTwo(r.chunksize) && base % PAGE == 0
    ensures (base + Chunk(r, k)) % r.chunksize == 0 <==> (base + z * PAGE) % r.chunksize == 0
    ensures r.chunksize <= PAGE ==> (base + Chunk(r, k)) % r.chunksize == 0
  {
    var c := r.chunksize;
    var q := (ZONE_HEADER + c - 1) / c;
    assert base + Chunk(r, k) == (base + z * PAGE) + (q + k) * c;
    ModShift(base + z * PAGE, q + k, c);
    if c <= PAGE {
      PageMultiple(base / PAGE + z, c);
    }
  }

  lemma PageMultiple(z: nat, c: int)
    requires PowerOfTwo(c) && c <= PAGE
    ensures z * PAGE % c == 0
  {
    assert PAGE == (PAGE / c) * c;
    assert z * PAGE == 0 + (z * (PAGE / c)) * c;
    ModShift(0, z * (PAGE / c), c);
  }
}
