/** The slab allocator of rt-thread/src/slab.c on top of its page allocator. Addresses are byte
    offsets from heap_start; zones and pages are named by page number. */
module Slab {
  import opened ZoneSpec
  import R = PageRuns
  import P = PageHeap

  const ZONE_RELEASE_THRESH: nat := 2

  datatype PageType = FreePage | SmallPage | LargePage

  /** struct memusage */
  datatype Usage = Usage(kind: PageType, size: nat)

  datatype Ptr = Null | At(addr: int)

  ghost predicate NoDup(s: seq<nat>) {
    forall i, j :: 0 <= i < j < |s| ==> s[i] != s[j]
  }

  /** The zone at page `z` has free chunks of index `i` and is not on the list of whole free zones. */
  ghost predicate Listed(zones: map<nat, Zone>, zoneFree: seq<nat>, i: int, z: nat) {
    z in zones && z !in zoneFree && zones[z].zoneindex == i && zones[z].nfree > 0
  }

  /** zone_array holds exactly the zones with free chunks, each on the list of its index. */
  ghost predicate Lists(zones: map<nat, Zone>, zoneFree: seq<nat>, arr: seq<seq<nat>>) {
    && |arr| == NZONES && NoDup(zoneFree) && |zoneFree| <= ZONE_RELEASE_THRESH
    && (forall z :: z in zoneFree ==> z in zones)
    && (forall i :: 0 <= i < |arr| ==> NoDup(arr[i]))
    && (forall i, z :: 0 <= i < |arr| ==> (z in arr[i] <==> Listed(zones, zoneFree, i, z)))
  }

  ghost predicate ZonesFine(zones: map<nat, Zone>, zoneFree: seq<nat>, zoneSize: int) {
    ZoneSizeOk(zoneSize) && forall z :: z in zones && z !in zoneFree ==>
      ZoneOk(zones[z]) && InPlace(z, zones[z], zoneSize)
  }

  /** The pages of a zone are marked with their distance from its start, and are not free pages. */
  ghost predicate ZonePages(z: nat, cnt: nat, usage: seq<Usage>, runs: seq<R.Run>) {
    && z + cnt <= |usage|
    && (forall p :: z <= p < z + cnt ==> usage[p] == Usage(SmallPage, p - z))
    && (forall p :: z <= p < z + cnt ==> !R.FreePage(runs, p))
  }

  ghost predicate LargePages(p: nat, n: nat, usage: seq<Usage>, runs: seq<R.Run>) {
    && n > 0 && p + n <= |usage| && usage[p] == Usage(LargePage, n)
    && (forall q :: p <= q < p + n ==> !R.FreePage(runs, q))
  }

  /** No `n` consecutive pages are free. */
  ghost predicate NoRange(runs: seq<R.Run>, n: nat) {
    forall b :: !R.FreeRange(runs, b, n)
  }

  predicate Disjoint(p: nat, n: nat, q: nat, m: nat) {
    p + n <= q || q + m <= p
  }

  /** Zones and large blocks own their pages; nothing else does. */
  ghost predicate Layout(zones: set<nat>, cnt: nat, large: map<nat, nat>, usage: seq<Usage>, runs: seq<R.Run>) {
    && (forall z :: z in zones ==> ZonePages(z, cnt, usage, runs))
    && (forall p :: p in large ==> LargePages(p, large[p], usage, runs))
    && (forall z, p :: z in zones && p in large ==> Disjoint(z, cnt, p, large[p]))
    && (forall p, q :: p in large && q in large && p != q ==> Disjoint(p, large[p], q, large[q]))
  }

  /** No page from `first` on is lost: it is free, or a page of a zone or of a large block. */
  ghost predicate NoneLost(first: nat, n: nat, zones: set<nat>, cnt: nat, large: map<nat, nat>, runs: seq<R.Run>) {
    forall p :: first <= p < n ==> R.FreePage(runs, p) || InZone(zones, cnt, p) || InLarge(large, p)
  }

  ghost predicate InZone(zones: set<nat>, cnt: nat, p: nat) {
    exists z :: z in zones && z <= p < z + cnt
  }

  ghost predicate InLarge(large: map<nat, nat>, p: nat) {
    exists b :: b in large && b <= p < b + large[b]
  }

  lemma CarvedKept(first: nat, n: nat, zones: set<nat>, cnt: nat, large: map<nat, nat>, runs: seq<R.Run>,
                   runs': seq<R.Run>, b: nat)
    requires NoneLost(first, n, zones, cnt, large, runs) && R.Taken(runs, runs', b, cnt)
    ensures NoneLost(first, n, zones + {b}, cnt, large, runs')
  {
    forall p | first <= p < n ensures R.FreePage(runs', p) || InZone(zones + {b}, cnt, p) || InLarge(large, p) {
      if InZone(zones, cnt, p) { var z :| z in zones && z <= p < z + cnt; assert z in zones + {b}; }
      assert b in zones + {b};
    }
  }

  lemma LargeKept(first: nat, n: nat, zones: set<nat>, cnt: nat, large: map<nat, nat>, runs: seq<R.Run>,
                  runs': seq<R.Run>, b: nat, m: nat)
    requires NoneLost(first, n, zones, cnt, large, runs) && R.Taken(runs, runs', b, m) && b !in large
    ensures NoneLost(first, n, zones, cnt, large[b := m], runs')
  {
    forall p | first <= p < n ensures R.FreePage(runs', p) || InZone(zones, cnt, p) || InLarge(large[b := m], p) {
      if InLarge(large, p) { var x :| x in large && x <= p < x + large[x]; assert x in large[b := m]; }
      assert b in large[b := m];
    }
  }

  lemma LargeReturned(first: nat, n: nat, zones: set<nat>, cnt: nat, large: map<nat, nat>, runs: seq<R.Run>,
                      runs': seq<R.Run>, b: nat)
    requires NoneLost(first, n, zones, cnt, large, runs) && b in large && R.Given(runs, runs', b, large[b])
    ensures NoneLost(first, n, zones, cnt, large - {b}, runs')
  {
    forall p | first <= p < n ensures R.FreePage(runs', p) || InZone(zones, cnt, p) || InLarge(large - {b}, p) {
      if InLarge(large, p) { var x :| x in large && x <= p < x + large[x]; assert x != b ==> x in large - {b}; }
    }
  }

  lemma ZoneReturned(first: nat, n: nat, zones: set<nat>, cnt: nat, large: map<nat, nat>, runs: seq<R.Run>,
                     runs': seq<R.Run>, b: nat)
    requires NoneLost(first, n, zones, cnt, large, runs) && R.Given(runs, runs', b, cnt)
    ensures NoneLost(first, n, zones - {b}, cnt, large, runs')
  {
    forall p | first <= p < n ensures R.FreePage(runs', p) || InZone(zones - {b}, cnt, p) || InLarge(large, p) {
      if InZone(zones, cnt, p) { var z :| z in zones && z <= p < z + cnt; assert z != b ==> z in zones - {b}; }
    }
  }

  /** No chunk of the zone is handed out: ZoneSpec.WhollyFree. */
  ghost predicate Idle(zones: map<nat, Zone>, z: nat) {
    z in zones && zones[z].nfree == zones[z].nmax
  }

  /** Each list of zone_array holds at most one wholly free zone, not counting `but`. */
  ghost predicate OneIdle(zones: map<nat, Zone>, arr: seq<seq<nat>>, but: set<nat>) {
    forall i, x, y :: 0 <= i < |arr| && x in arr[i] && y in arr[i] && Idle(zones, x) && Idle(zones, y) ==>
      x == y || x in but || y in but
  }

  /** A chunk of some zone in use that is handed out. */
  ghost predicate Live(zones: map<nat, Zone>, zoneFree: seq<nat>, a: int) {
    exists z :: z in zones && z !in zoneFree && LiveChunk(zones[z], a)
  }

  /** The page entry of a chunk's address leads back to the chunk's zone. */
  lemma UsageLeadsHome(zones: map<nat, Zone>, zoneFree: seq<nat>, zoneSize: int, large: map<nat, nat>,
                       usage: seq<Usage>, runs: seq<R.Run>, z: nat, a: int)
    requires ZonesFine(zones, zoneFree, zoneSize) && Layout(zones.Keys, zoneSize / PAGE, large, usage, runs)
    requires z in zones && z !in zoneFree && IsChunk(zones[z], a)
    ensures 0 <= a / PAGE < |usage| && usage[a / PAGE] == Usage(SmallPage, a / PAGE - z)
  {
    ChunkInside(z, zones[z], zoneSize, a);
    assert ZonePages(z, zoneSize / PAGE, usage, runs);
  }

  /** A chunk belongs to one zone only. */
  lemma OneZone(zones: map<nat, Zone>, zoneFree: seq<nat>, zoneSize: int, large: map<nat, nat>, usage: seq<Usage>,
                runs: seq<R.Run>, z: nat, y: nat, a: int)
    requires ZonesFine(zones, zoneFree, zoneSize) && Layout(zones.Keys, zoneSize / PAGE, large, usage, runs)
    requires z in zones && z !in zoneFree && IsChunk(zones[z], a)
    requires y in zones && y !in zoneFree && IsChunk(zones[y], a)
    ensures z == y
  {
    UsageLeadsHome(zones, zoneFree, zoneSize, large, usage, runs, z, a);
    UsageLeadsHome(zones, zoneFree, zoneSize, large, usage, runs, y, a);
  }

  // ---------- changes to one zone ----------

  lemma ListsTake(zones: map<nat, Zone>, zoneFree: seq<nat>, arr: seq<seq<nat>>, zi: int, r: Zone)
    requires Lists(zones, zoneFree, arr) && 0 <= zi < NZONES && arr[zi] != [] && arr[zi][0] in zones
    requires r.zoneindex == zi && r.nfree == zones[arr[zi][0]].nfree - 1
    ensures var z := arr[zi][0];
      Lists(zones[z := r], zoneFree, if r.nfree == 0 then arr[zi := arr[zi][1..]] else arr)
  {
    var z := arr[zi][0];
    var zones' := zones[z := r];
    var arr' := if r.nfree == 0 then arr[zi := arr[zi][1..]] else arr;
    assert z in arr[zi];
    assert arr[zi] == [z] + arr[zi][1..];
    TailNoDup(arr[zi]);
    forall i, x | 0 <= i < |arr'| ensures x in arr'[i] <==> Listed(zones', zoneFree, i, x) {
      assert x in arr[i] <==> Listed(zones, zoneFree, i, x);
      assert i == zi ==> (x in arr[zi] <==> x == z || x in arr[zi][1..]);
    }
  }

  lemma TailNoDup(s: seq<nat>)
    requires NoDup(s) && s != []
    ensures NoDup(s[1..]) && s[0] !in s[1..]
  {
  }

  lemma ListsPut(zones: map<nat, Zone>, zoneFree: seq<nat>, arr: seq<seq<nat>>, z: nat, r: Zone)
    requires Lists(zones, zoneFree, arr) && z in zones && z !in zoneFree
    requires r.zoneindex == zones[z].zoneindex && 0 <= r.zoneindex < NZONES && r.nfree == zones[z].nfree + 1 > 0
    ensures Lists(zones[z := r], zoneFree,
      if zones[z].nfree == 0 then arr[r.zoneindex := [z] + arr[r.zoneindex]] else arr)
  {
    var zi := r.zoneindex;
    var zones' := zones[z := r];
    var arr' := if zones[z].nfree == 0 then arr[zi := [z] + arr[zi]] else arr;
    assert z in arr[zi] <==> Listed(zones, zoneFree, zi, z);
    forall i | 0 <= i < |arr'| ensures NoDup(arr'[i]) {
      if zones[z].nfree == 0 && i == zi { ConsNoDup(z, arr[zi]); }
    }
    forall i, x | 0 <= i < |arr'| ensures x in arr'[i] <==> Listed(zones', zoneFree, i, x) {
      assert x in arr[i] <==> Listed(zones, zoneFree, i, x);
      assert x in [z] + arr[zi] <==> x == z || x in arr[zi];
    }
  }

  lemma ConsNoDup(z: nat, s: seq<nat>)
    requires NoDup(s) && z !in s
    ensures NoDup([z] + s)
  {
  }

  /** Replacing one zone record changes the live chunks by that zone's change only. */
  lemma LiveUpdate(zones: map<nat, Zone>, zoneFree: seq<nat>, z: nat, r: Zone, a: int)
    requires z in zones && z !in zoneFree
    ensures Live(zones[z := r], zoneFree, a) <==>
      LiveChunk(r, a) || exists y :: y in zones && y !in zoneFree && y != z && LiveChunk(zones[y], a)
  {
    if Live(zones[z := r], zoneFree, a) {
      var y :| y in zones[z := r] && y !in zoneFree && LiveChunk(zones[z := r][y], a);
    }
    if LiveChunk(r, a) { assert z in zones[z := r] && LiveChunk(zones[z := r][z], a); }
    if exists y :: y in zones && y !in zoneFree && y != z && LiveChunk(zones[y], a) {
      var y :| y in zones && y !in zoneFree && y != z && LiveChunk(zones[y], a);
      assert y in zones[z := r] && LiveChunk(zones[z := r][y], a);
    }
  }

  /** A zone just carved, or taken from the whole free zones, heads the list of its index. */
  lemma ListsNew(zones: map<nat, Zone>, zoneFree: seq<nat>, zoneFree': seq<nat>, arr: seq<seq<nat>>, z: nat, r: Zone)
    requires Lists(zones, zoneFree, arr) && 0 <= r.zoneindex < NZONES && r.nfree > 0
    requires if z in zones then zoneFree != [] && z == zoneFree[0] && zoneFree' == zoneFree[1..]
      else zoneFree' == zoneFree
    ensures Lists(zones[z := r], zoneFree', arr[r.zoneindex := [z] + arr[r.zoneindex]])
  {
    var zi := r.zoneindex;
    var zones' := zones[z := r];
    var arr' := arr[zi := [z] + arr[zi]];
    assert z in arr[zi] <==> Listed(zones, zoneFree, zi, z);
    if z in zones {
      TailNoDup(zoneFree);
      assert zoneFree == [z] + zoneFree';
    }
    assert z !in zoneFree' && forall x :: x != z ==> (x in zoneFree <==> x in zoneFree');
    forall i | 0 <= i < |arr'| ensures NoDup(arr'[i]) {
      if i == zi { ConsNoDup(z, arr[zi]); }
    }
    forall i, x | 0 <= i < |arr'| ensures x in arr'[i] <==> Listed(zones', zoneFree', i, x) {
      assert x in arr[i] <==> Listed(zones, zoneFree, i, x);
      assert x in [z] + arr[zi] <==> x == z || x in arr[zi];
    }
  }

  /** Lists except for how many whole free zones there may be. */
  ghost predicate ListsRetired(zones: map<nat, Zone>, zoneFree: seq<nat>, arr: seq<seq<nat>>) {
    && |arr| == NZONES && NoDup(zoneFree) && 0 < |zoneFree| <= ZONE_RELEASE_THRESH + 1
    && (forall z :: z in zoneFree ==> z in zones)
    && (forall i :: 0 <= i < |arr| ==> NoDup(arr[i]))
    && (forall i, z :: 0 <= i < |arr| ==> (z in arr[i] <==> Listed(zones, zoneFree, i, z)))
  }

  function Cut(s: seq<nat>, k: nat): seq<nat>
    requires k < |s|
  {
    s[..k] + s[k + 1..]
  }

  lemma CutIn(s: seq<nat>, k: nat)
    requires k < |s| && NoDup(s)
    ensures NoDup(Cut(s, k)) && forall x :: x in Cut(s, k) <==> x in s && x != s[k]
  {
    assert s == s[..k] + [s[k]] + s[k + 1..];
  }

  /** Moving a wholly free zone from its list to the whole free zones. */
  lemma ListsRetire(zones: map<nat, Zone>, zoneFree: seq<nat>, arr: seq<seq<nat>>, zi: int, k: nat)
    requires Lists(zones, zoneFree, arr) && 0 <= zi < NZONES && k < |arr[zi]|
    ensures ListsRetired(zones, [arr[zi][k]] + zoneFree, arr[zi := Cut(arr[zi], k)])
  {
    var z := arr[zi][k];
    var free', arr' := [z] + zoneFree, arr[zi := Cut(arr[zi], k)];
    assert z in arr[zi];
    CutIn(arr[zi], k);
    ConsNoDup(z, zoneFree);
    forall i, x | 0 <= i < |arr'| ensures x in arr'[i] <==> Listed(zones, free', i, x) {
      assert x in arr[i] <==> Listed(zones, zoneFree, i, x);
    }
  }

  /** Giving the pages of a whole free zone back. */
  lemma ListsRelease(zones: map<nat, Zone>, zoneFree: seq<nat>, arr: seq<seq<nat>>)
    requires ListsRetired(zones, zoneFree, arr)
    ensures zoneFree[0] in zones && Lists(zones - {zoneFree[0]}, zoneFree[1..], arr)
  {
    var z, free' := zoneFree[0], zoneFree[1..];
    TailNoDup(zoneFree);
    assert zoneFree == [z] + free';
    forall i, x | 0 <= i < |arr| ensures x in arr[i] <==> Listed(zones - {z}, free', i, x) {
      assert x in arr[i] <==> Listed(zones, zoneFree, i, x);
    }
  }

  /** No list has gained a wholly free zone, but perhaps `but`. */
  lemma IdleFewer(zones: map<nat, Zone>, arr: seq<seq<nat>>, zones': map<nat, Zone>, arr': seq<seq<nat>>, but: set<nat>)
    requires OneIdle(zones, arr, {}) && |arr'| == |arr|
    requires forall i, x :: 0 <= i < |arr| && x in arr'[i] && Idle(zones', x) && x !in but ==>
      x in arr[i] && Idle(zones, x)
    ensures OneIdle(zones', arr', but)
  {
  }

  lemma IdleTake(zones: map<nat, Zone>, arr: seq<seq<nat>>, zi: int, z: nat, r: Zone)
    requires OneIdle(zones, arr, {}) && 0 <= zi < |arr| && arr[zi] != [] && r.nfree < r.nmax
    ensures OneIdle(zones[z := r], arr, {}) && OneIdle(zones[z := r], arr[zi := arr[zi][1..]], {})
  {
    IdleFewer(zones, arr, zones[z := r], arr, {});
    var arr' := arr[zi := arr[zi][1..]];
    forall i, x | 0 <= i < |arr| && x in arr'[i] && Idle(zones[z := r], x) ensures x in arr[i] && Idle(zones, x) {
    }
    IdleFewer(zones, arr, zones[z := r], arr', {});
  }

  lemma IdlePut(zones: map<nat, Zone>, arr: seq<seq<nat>>, zi: int, z: nat, r: Zone)
    requires OneIdle(zones, arr, {}) && 0 <= zi < |arr|
    ensures OneIdle(zones[z := r], arr, {z}) && OneIdle(zones[z := r], arr[zi := [z] + arr[zi]], {z})
    ensures r.nfree < r.nmax ==> OneIdle(zones[z := r], arr[zi := [z] + arr[zi]], {})
  {
    IdleFewer(zones, arr, zones[z := r], arr, {z});
    IdleFewer(zones, arr, zones[z := r], arr[zi := [z] + arr[zi]], {z});
    if r.nfree < r.nmax { IdleFewer(zones, arr, zones[z := r], arr[zi := [z] + arr[zi]], {}); }
  }

  /** Once the zone is off its list it does not matter any more. */
  lemma IdleCut(zones: map<nat, Zone>, zoneFree: seq<nat>, arr: seq<seq<nat>>, zi: int, k: nat)
    requires Lists(zones, zoneFree, arr) && 0 <= zi < NZONES && k < |arr[zi]| && OneIdle(zones, arr, {arr[zi][k]})
    ensures OneIdle(zones, arr[zi := Cut(arr[zi], k)], {})
  {
    var z, arr' := arr[zi][k], arr[zi := Cut(arr[zi], k)];
    CutIn(arr[zi], k);
    assert z in arr[zi];
    forall i, x, y | 0 <= i < |arr'| && x in arr'[i] && y in arr'[i] && Idle(zones, x) && Idle(zones, y)
      ensures x == y
    {
      assert x in arr[i] && y in arr[i] && x != z && y != z by {
        if i != zi { assert z in arr[i] ==> Listed(zones, zoneFree, i, z) && Listed(zones, zoneFree, zi, z); }
      }
    }
  }

  /** A wholly free zone may stay where it is the only one of its list. */
  lemma IdleAlone(zones: map<nat, Zone>, zoneFree: seq<nat>, arr: seq<seq<nat>>, zi: int, z: nat)
    requires Lists(zones, zoneFree, arr) && 0 <= zi < NZONES && z in arr[zi] && OneIdle(zones, arr, {z})
    requires !Idle(zones, z) || |arr[zi]| <= 1
    ensures OneIdle(zones, arr, {})
  {
    forall i, x, y | 0 <= i < |arr| && x in arr[i] && y in arr[i] && Idle(zones, x) && Idle(zones, y) ensures x == y {
      assert z in arr[i] ==> Listed(zones, zoneFree, i, z) && Listed(zones, zoneFree, zi, z);
    }
  }

  /** It need not stay the only one: a full zone that gets its first chunk back goes in front of it. */
  lemma IdleBehind(zones: map<nat, Zone>, zoneFree: seq<nat>, arr: seq<seq<nat>>, zi: int, a: nat, z: nat, r: Zone)
    requires Lists(zones, zoneFree, arr) && 0 <= zi < NZONES && arr[zi] == [a] && Idle(zones, a)
    requires z in zones && z !in zoneFree && z != a && zones[z].nfree == 0 && zones[z].zoneindex == zi
    requires r.zoneindex == zi && r.nfree == 1 < r.nmax
    ensures var zones', arr' := zones[z := r], arr[zi := [z] + arr[zi]];
      Lists(zones', zoneFree, arr') && arr'[zi] == [z, a] && Idle(zones', a) && !Idle(zones', z)
  {
    ListsPut(zones, zoneFree, arr, z, r);
  }

  lemma IdleRelease(zones: map<nat, Zone>, arr: seq<seq<nat>>, z: nat)
    requires OneIdle(zones, arr, {})
    ensures OneIdle(zones - {z}, arr, {})
  {
    IdleFewer(zones, arr, zones - {z}, arr, {});
  }

  // ---------- changes to the pages ----------

  /** Pages taken from the page allocator belong to no zone and no large block. */
  lemma FreshPages(zones: set<nat>, cnt: nat, large: map<nat, nat>, usage: seq<Usage>, runs: seq<R.Run>, b: nat, n: nat)
    requires Layout(zones, cnt, large, usage, runs) && n > 0 && cnt > 0 && R.FreeRange(runs, b, n)
    ensures forall z :: z in zones ==> Disjoint(b, n, z, cnt)
    ensures forall p :: p in large ==> Disjoint(b, n, p, large[p])
  {
    forall z | z in zones ensures Disjoint(b, n, z, cnt) {
      assert ZonePages(z, cnt, usage, runs);
      var q := if b < z then z else b;
      assert q < b + n ==> R.FreePage(runs, q);
    }
    forall p | p in large ensures Disjoint(b, n, p, large[p]) {
      assert LargePages(p, large[p], usage, runs);
      var q := if b < p then p else b;
      assert q < b + n ==> R.FreePage(runs, q);
    }
  }

  /** Nothing changes for owners whose pages keep their entries and do not become free. */
  lemma LayoutFrame(zones: set<nat>, cnt: nat, large: map<nat, nat>, usage: seq<Usage>, runs: seq<R.Run>,
                    usage': seq<Usage>, runs': seq<R.Run>)
    requires Layout(zones, cnt, large, usage, runs) && |usage'| == |usage|
    requires forall z, p :: z in zones && z <= p < z + cnt ==> usage'[p] == usage[p] && !R.FreePage(runs', p)
    requires forall l, p :: l in large && l <= p < l + large[l] ==> !R.FreePage(runs', p)
    requires forall l :: l in large ==> usage'[l] == usage[l]
    ensures Layout(zones, cnt, large, usage', runs')
  {
    forall z | z in zones ensures ZonePages(z, cnt, usage', runs') { assert ZonePages(z, cnt, usage, runs); }
    forall p | p in large
      ensures LargePages(p, large[p], usage', runs')
    {
      assert LargePages(p, large[p], usage, runs);
    }
  }

  /** The zones a request may be served from: all with chunks no larger than a quarter zone. */
  lemma ChunkFitsZone(size: int, zi: int, n: int, zoneSize: int, zoneLimit: int)
    requires ZoneSizeOk(zoneSize) && zoneLimit == (if zoneSize / 4 > 16384 then 16384 else zoneSize / 4)
    requires 0 < size < zoneLimit && BestIndex(size, zi, n)
    ensures 0 < n <= zoneSize / 4
  {
    if zoneLimit == 8192 { assert ChunkOf(63) == 8192; ChunkMono(zi, 63); }
    else { assert ChunkOf(71) == 16384; ChunkMono(zi, 71); }
  }

  ghost predicate TakeChunkPre(z: Zone) {
    z.uindex + 1 == z.nmax ==> z.freechunk != []
  }

  /** The largest of the zone sizes that is less than a 1024th of the heap, or else the least zone size. */
  function ZoneSizeOf(limsize: nat): int {
    if limsize / 1024 > 0x20000 then 0x20000 else if limsize / 1024 > 0x10000 then 0x10000 else 0x8000
  }

  /** Pages for the page usage table. */
  function TablePages(npages: nat): nat {
    (npages * 4 + PAGE - 1) / PAGE
  }

  /** The zone size loop of rt_system_heap_init. */
  method ZoneSizeFor(limsize: nat) returns (zoneSize: int)
    ensures ZoneSizeOk(zoneSize) && zoneSize == ZoneSizeOf(limsize)
  {
    zoneSize := 0x8000;
    while zoneSize < 0x20000 && zoneSize * 2 < limsize / 1024
      invariant ZoneSizeOk(zoneSize) && (zoneSize > 0x8000 ==> zoneSize < limsize / 1024)
    {
      zoneSize := zoneSize * 2;
    }
  }

  /** A record put at page `z`, which no zone in use occupies, adds its live chunks. */
  lemma InstallLive(zones: map<nat, Zone>, zoneFree: seq<nat>, zoneFree': seq<nat>, z: nat, r: Zone, x: int)
    requires (z in zones ==> z in zoneFree) && z !in zoneFree'
    requires forall y :: y != z ==> (y in zoneFree <==> y in zoneFree')
    ensures Live(zones[z := r], zoneFree', x) <==> Live(zones, zoneFree, x) || LiveChunk(r, x)
  {
    if Live(zones, zoneFree, x) {
      var y :| y in zones && y !in zoneFree && LiveChunk(zones[y], x);
      assert y in zones[z := r] && y !in zoneFree' && LiveChunk(zones[z := r][y], x);
    }
    if LiveChunk(r, x) { assert z in zones[z := r] && LiveChunk(zones[z := r][z], x); }
  }

  lemma OffList(zoneFree: seq<nat>, zoneFree': seq<nat>, z: nat, zones: map<nat, Zone>)
    requires NoDup(zoneFree) && forall y :: y in zoneFree ==> y in zones
    requires if z in zones then zoneFree != [] && z == zoneFree[0] && zoneFree' == zoneFree[1..]
      else zoneFree' == zoneFree
    ensures (z in zones ==> z in zoneFree) && z !in zoneFree'
    ensures forall y :: y != z ==> (y in zoneFree <==> y in zoneFree')
  {
    if z in zones {
      TailNoDup(zoneFree);
      assert zoneFree == [z] + zoneFree';
    }
  }

  /** Zones that share a page are the same zone. */
  lemma SharedPage(zones: set<nat>, cnt: nat, large: map<nat, nat>, usage: seq<Usage>, runs: seq<R.Run>, y: nat, z: nat,
                   p: nat)
    requires Layout(zones, cnt, large, usage, runs) && y in zones && z in zones
    requires y <= p < y + cnt && z <= p < z + cnt
    ensures y == z
  {
    assert ZonePages(y, cnt, usage, runs) && ZonePages(z, cnt, usage, runs);
    assert usage[p] == Usage(SmallPage, p - y) && usage[p] == Usage(SmallPage, p - z);
  }

  /** The layout once `cnt` fresh pages at `b` are marked as a zone. */
  lemma CarvedLayout(zones: set<nat>, cnt: nat, large: map<nat, nat>, usage: seq<Usage>, runs: seq<R.Run>,
                     usage': seq<Usage>, runs': seq<R.Run>, b: nat)
    requires Layout(zones, cnt, large, usage, runs) && |usage'| == |usage| && b + cnt <= |usage| && cnt > 0
    requires forall z :: z in zones ==> Disjoint(b, cnt, z, cnt)
    requires forall p :: p in large ==> Disjoint(b, cnt, p, large[p])
    requires forall p :: 0 <= p < |usage| && !(b <= p < b + cnt) ==> usage'[p] == usage[p]
    requires forall p :: b <= p < b + cnt ==> usage'[p] == Usage(SmallPage, p - b)
    requires R.Taken(runs, runs', b, cnt)
    ensures Layout(zones + {b}, cnt, large, usage', runs') && b !in zones
  {
    forall z | z in zones ensures ZonePages(z, cnt, usage', runs') { assert ZonePages(z, cnt, usage, runs); }
    forall p | p in large
      ensures LargePages(p, large[p], usage', runs')
    {
      assert LargePages(p, large[p], usage, runs);
    }
  }

  /** The layout once `n` fresh pages at `b` are marked as a large block. */
  lemma LargeLayout(zones: set<nat>, cnt: nat, large: map<nat, nat>, usage: seq<Usage>, runs: seq<R.Run>,
                    usage': seq<Usage>, runs': seq<R.Run>, b: nat, n: nat)
    requires Layout(zones, cnt, large, usage, runs) && |usage'| == |usage| && b + n <= |usage| && n > 0 && cnt > 0
    requires forall z :: z in zones ==> Disjoint(b, n, z, cnt)
    requires forall p :: p in large ==> Disjoint(b, n, p, large[p])
    requires usage' == usage[b := Usage(LargePage, n)] && R.Taken(runs, runs', b, n)
    ensures Layout(zones, cnt, large[b := n], usage', runs') && b !in large
  {
    forall p | p in large ensures p != b { assert LargePages(p, large[p], usage, runs); }
    var large' := large[b := n];
    forall z | z in zones ensures ZonePages(z, cnt, usage', runs') { assert ZonePages(z, cnt, usage, runs); }
    forall p | p in large' ensures LargePages(p, large'[p], usage', runs') {
      if p != b { assert LargePages(p, large[p], usage, runs); }
    }
  }

  /** The layout once the pages of large block `b` are given back. */
  lemma WithoutLarge(zones: set<nat>, cnt: nat, large: map<nat, nat>, usage: seq<Usage>, runs: seq<R.Run>,
                     usage': seq<Usage>, runs': seq<R.Run>, b: nat)
    requires Layout(zones, cnt, large, usage, runs) && |usage'| == |usage| && b in large && b < |usage|
    requires usage' == usage[b := Usage(LargePage, 0)] && R.Given(runs, runs', b, large[b])
    ensures Layout(zones, cnt, large - {b}, usage', runs')
  {
    var large' := large - {b};
    assert LargePages(b, large[b], usage, runs);
    forall z | z in zones ensures ZonePages(z, cnt, usage', runs') {
      assert ZonePages(z, cnt, usage, runs) && Disjoint(z, cnt, b, large[b]);
    }
    forall p | p in large' ensures LargePages(p, large'[p], usage', runs') {
      assert LargePages(p, large[p], usage, runs) && Disjoint(p, large[p], b, large[b]);
    }
  }

  /** The layout once the pages of zone `b` are given back. */
  lemma WithoutZone(zones: set<nat>, cnt: nat, large: map<nat, nat>, usage: seq<Usage>, runs: seq<R.Run>,
                    usage': seq<Usage>, runs': seq<R.Run>, b: nat)
    requires Layout(zones, cnt, large, usage, runs) && |usage'| == |usage| && b in zones && b + cnt <= |usage|
    requires cnt > 0
    requires forall p :: 0 <= p < |usage| && !(b <= p < b + cnt) ==> usage'[p] == usage[p]
    requires R.Given(runs, runs', b, cnt)
    ensures Layout(zones - {b}, cnt, large, usage', runs')
  {
    forall z | z in zones - {b} ensures ZonePages(z, cnt, usage', runs') {
      assert ZonePages(z, cnt, usage, runs);
      ZonesApart(zones, cnt, large, usage, runs, z, b);
    }
    forall p | p in large ensures LargePages(p, large[p], usage', runs') {
      assert LargePages(p, large[p], usage, runs) && Disjoint(b, cnt, p, large[p]);
    }
  }

  lemma ZonesApart(zones: set<nat>, cnt: nat, large: map<nat, nat>, usage: seq<Usage>, runs: seq<R.Run>, y: nat, z: nat)
    requires Layout(zones, cnt, large, usage, runs) && y in zones && z in zones && y != z && cnt > 0
    ensures Disjoint(y, cnt, z, cnt)
  {
    if !Disjoint(y, cnt, z, cnt) {
      SharedPage(zones, cnt, large, usage, runs, y, z, if y < z then z else y);
    }
  }

  /** A wholly free zone has no live chunks to lose. */
  lemma RetireLive(zones: map<nat, Zone>, zoneFree: seq<nat>, z: nat, x: int)
    requires z in zones && forall x :: !LiveChunk(zones[z], x)
    ensures Live(zones, [z] + zoneFree, x) <==> Live(zones, zoneFree, x)
  {
    if Live(zones, zoneFree, x) {
      var y :| y in zones && y !in zoneFree && LiveChunk(zones[y], x);
      assert y !in [z] + zoneFree;
    }
    if Live(zones, [z] + zoneFree, x) {
      var y :| y in zones && y !in [z] + zoneFree && LiveChunk(zones[y], x);
      assert y !in zoneFree;
    }
  }

  lemma ReleaseLive(zones: map<nat, Zone>, zoneFree: seq<nat>, x: int)
    requires zoneFree != []
    ensures Live(zones - {zoneFree[0]}, zoneFree[1..], x) <==> Live(zones, zoneFree, x)
  {
    var z := zoneFree[0];
    assert zoneFree == [z] + zoneFree[1..];
    if Live(zones, zoneFree, x) {
      var y :| y in zones && y !in zoneFree && LiveChunk(zones[y], x);
      assert y in zones - {z} && y !in zoneFree[1..] && LiveChunk((zones - {z})[y], x);
    }
    if Live(zones - {z}, zoneFree[1..], x) {
      var y :| y in zones - {z} && y !in zoneFree[1..] && LiveChunk((zones - {z})[y], x);
      assert y in zones && y !in zoneFree && LiveChunk(zones[y], x);
    }
  }

  lemma KeysMinus(zones: map<nat, Zone>, z: nat)
    ensures (zones - {z}).Keys == zones.Keys - {z}
  {
  }

  lemma StillFine(zones: map<nat, Zone>, zoneFree: seq<nat>, zoneSize: int)
    requires ZonesFine(zones, zoneFree, zoneSize) && zoneFree != []
    ensures ZonesFine(zones - {zoneFree[0]}, zoneFree[1..], zoneSize)
  {
    assert zoneFree == [zoneFree[0]] + zoneFree[1..];
  }

  /** The usage table gets the first pages of the heap. */
  lemma FirstPages(npages: nat, runs: seq<R.Run>, b: P.Link, runs': seq<R.Run>)
    requires npages > 0 && forall p :: R.FreePage(runs, p) <==> 0 <= p < npages
    requires b == P.Null ==> forall p :: !R.FreeRange(runs, p, TablePages(npages))
    requires b.At? ==> R.Taken(runs, runs', b.page, TablePages(npages)) && forall p :: p < b.page ==>
      !R.FreeRange(runs, p, TablePages(npages))
    requires b.At? ==> R.FreeRange(runs, b.page, TablePages(npages))
    ensures RoundUp(npages * 4, PAGE) / PAGE == TablePages(npages) > 0
    ensures forall p :: R.FreePage(runs', p) <==> TablePages(npages) <= p < npages
  {
    var n := TablePages(npages);
    assert 0 < n <= npages;
    assert R.FreeRange(runs, 0, n);
  }

  /** A heap of 16640 pages has zones of 64 KB and its first free page is page 17: if it starts at a multiple of 8192,
      the first chunk of 8192 bytes handed out is not aligned to 8192 bytes. */
  lemma MisalignedChunk(base: nat, runs: seq<R.Run>)
    requires forall p :: R.FreePage(runs, p) <==> TablePages(16640) <= p < 16640
    requires base % 8192 == 0
    ensures ZoneSizeOf(16640 * PAGE) == 0x10000 && BestIndex(8192, 63, 8192) && PowerOfTwo(8192)
    ensures R.FreeRange(runs, 17, 0x10000 / PAGE) && forall b :: b < 17 ==> !R.FreeRange(runs, b, 0x10000 / PAGE)
    ensures var r := NewZone(17, 63, 8192, 0x10000);
      InPlace(17, r, 0x10000) && LiveChunk(r, Chunk(r, 0)) && (base + Chunk(r, 0)) % 8192 == 4096
  {
    assert TablePages(16640) == 17;
    forall b | b < 17 ensures !R.FreeRange(runs, b, 0x10000 / PAGE) { assert !R.FreePage(runs, b); }
    Best(8192, 63, 8192);
    NewZoneOk(17, 63, 0x10000);
    assert Chunk(NewZone(17, 63, 8192, 0x10000), 0) == 17 * PAGE + Offset(8192);
  }

  lemma WholePages(zoneSize: int)
    requires ZoneSizeOk(zoneSize)
    ensures zoneSize / PAGE * PAGE == zoneSize
  {
  }

  lemma SameZoneApart(r: Zone, a: int, b: int)
    requires r.chunksize > 0 && IsChunk(r, a) && IsChunk(r, b) && a != b
    ensures a + r.chunksize <= b || b + r.chunksize <= a
  {
    var j :| 0 <= j <= r.uindex && a == Chunk(r, j);
    var k :| 0 <= k <= r.uindex && b == Chunk(r, k);
    ChunkInjective(r, j, k);
    ChunkInjective(r, k, j);
  }

  lemma PagesApart(p: nat, n: nat, q: nat, m: nat)
    requires Disjoint(p, n, q, m)
    ensures (p + n) * PAGE <= q * PAGE || (q + m) * PAGE <= p * PAGE
    ensures (p + n) * PAGE == p * PAGE + n * PAGE
  {
  }

  class Slab {
    const pages: P.Pages
    const memusage: array<Usage>
    const zoneSize: int  // zone_size
    const zoneLimit: int // zone_limit
    var zones: map<nat, Zone>     // zone headers, by first page
    var zoneArray: seq<seq<nat>>  // zone_array[zi], linked by z_next
    var zoneFree: seq<nat>        // zone_free, linked by z_next; zone_free_cnt is its length
    ghost const first: nat         // first page behind the usage table
    ghost var large: map<nat, nat> // large blocks: first page and number of pages

    /** rt_system_heap_init over `npages` whole pages. */
    constructor (npages: nat)
      requires npages > 0
      ensures Valid() && memusage.Length == npages && zones == map[] && large == map[] && fresh(memusage)
      ensures fresh(pages) && fresh(pages.head) && zoneSize == ZoneSizeOf(npages * PAGE)
      ensures forall p :: R.FreePage(pages.runs, p) <==> TablePages(npages) <= p < npages
      ensures first == TablePages(npages)
    {
      pages := new P.Pages(npages);
      var limsize := npages * PAGE;
      var size := ZoneSizeFor(limsize);
      zoneSize := size;
      zoneLimit := if size / 4 > 16384 then 16384 else size / 4;
      memusage := new Usage[npages](_ => Usage(FreePage, 0));
      zones, zoneArray, zoneFree, large := map[], seq(NZONES, _ => []), [], map[];
      first := TablePages(npages);
      new;
      ghost var runs := pages.runs;
      var n := RoundUp(npages * 4, PAGE);
      var b := pages.Alloc(n / PAGE);
      FirstPages(npages, runs, b, pages.runs);
    }

    ghost predicate Valid()
      reads this, pages, pages.head, memusage
    {
      Sound() && OneIdle(zones, zoneArray, {})
    }

    /** What holds also before a zone that has just become wholly free is retired. */
    ghost predicate Sound()
      reads this, pages, pages.head, memusage
    {
      && zoneLimit == (if zoneSize / 4 > 16384 then 16384 else zoneSize / 4)
      && pages.Valid() && memusage.Length == pages.head.Length
      && Lists(zones, zoneFree, zoneArray) && ZonesFine(zones, zoneFree, zoneSize)
      && Layout(zones.Keys, zoneSize / PAGE, large, memusage[..], pages.runs)
      && NoneLost(first, memusage.Length, zones.Keys, zoneSize / PAGE, large, pages.runs)
    }

    ghost predicate LiveAt(a: int)
      reads this
    {
      Live(zones, zoneFree, a)
    }

    /** Live chunks share no byte with each other. */
    lemma ChunksApart(z: nat, a: int, y: nat, b: int)
      requires Valid() && z in zones && z !in zoneFree && LiveChunk(zones[z], a)
      requires y in zones && y !in zoneFree && LiveChunk(zones[y], b) && a != b
      ensures a + zones[z].chunksize <= b || b + zones[y].chunksize <= a
    {
      var cnt := zoneSize / PAGE;
      ChunkInside(z, zones[z], zoneSize, a);
      ChunkInside(y, zones[y], zoneSize, b);
      if z == y {
        SameZoneApart(zones[z], a, b);
      } else {
        ZonesApart(zones.Keys, cnt, large, memusage[..], pages.runs, z, y);
      }
    }

    /** Live chunks share no byte with a large block. */
    lemma ChunkOffLarge(z: nat, a: int, b: nat)
      requires Valid() && z in zones && z !in zoneFree && LiveChunk(zones[z], a) && b in large
      ensures a + zones[z].chunksize <= b * PAGE || (b + large[b]) * PAGE <= a
    {
      var n := zoneSize / PAGE;
      ChunkInside(z, zones[z], zoneSize, a);
      WholePages(zoneSize);
      assert Disjoint(z, n, b, large[b]);
      PagesApart(z, n, b, large[b]);
    }

    /** Two zones of one list without a chunk handed out are the same. */
    lemma OneWhollyFree(i: nat, x: nat, y: nat)
      requires Valid() && i < |zoneArray| && x in zoneArray[i] && y in zoneArray[i]
      ensures x in zones && y in zones
      ensures (forall a :: !LiveChunk(zones[x], a)) && (forall a :: !LiveChunk(zones[y], a)) ==> x == y
    {
      assert Listed(zones, zoneFree, i, x) && Listed(zones, zoneFree, i, y);
      WhollyFree(zones[x]);
      WhollyFree(zones[y]);
      if (forall a :: !LiveChunk(zones[x], a)) && forall a :: !LiveChunk(zones[y], a) {
        assert Idle(zones, x) && Idle(zones, y);
      }
    }

    /** No page is lost: whatever is neither free nor part of a large block belongs to a zone, which is on the list of
        its index if it has a free chunk, or is one of the few whole free zones. */
    lemma NoPageLost(p: nat)
      requires Valid() && first <= p < memusage.Length
      ensures R.FreePage(pages.runs, p) || InLarge(large, p) || exists z ::
        && z in zones && z <= p < z + zoneSize / PAGE
        && (z in zoneFree || zones[z].nfree <= 0 || exists i :: 0 <= i < |zoneArray| && z in zoneArray[i])
    {
      if !R.FreePage(pages.runs, p) && !InLarge(large, p) {
        var z :| z in zones.Keys && z <= p < z + zoneSize / PAGE;
        if z !in zoneFree && zones[z].nfree > 0 {
          var i := zones[z].zoneindex;
          assert Listed(zones, zoneFree, i, z);
          assert z in zoneArray[i];
        }
      }
    }

    /** rt_malloc on a zone that has a free chunk. */
    method TakeFrom(zi: int) returns (a: int)
      requires Valid() && 0 <= zi < NZONES && zoneArray[zi] != []
      modifies this
      ensures Valid() && large == old(large)
      ensures !old(LiveAt(a)) && forall x :: LiveAt(x) <==> old(LiveAt(x)) || x == a
      ensures exists z :: z in zones && z !in zoneFree && zones[z].zoneindex == zi && LiveChunk(zones[z], a)
    {
      var z := zoneArray[zi][0];
      assert z in zoneArray[zi];
      TakeChunkOk(zones[z]);
      var (r, chunk) := TakeChunk(zones[z]);
      TakeLive(z, r, chunk);
      ListsTake(zones, zoneFree, zoneArray, zi, r);
      NotIdle(zones[z], r);
      IdleTake(zones, zoneArray, zi, z, r);
      assert zones[z := r].Keys == zones.Keys;
      if r.nfree == 0 {
        zoneArray := zoneArray[zi := zoneArray[zi][1..]];
      }
      zones := zones[z := r];
      a := chunk;
    }

    lemma NotIdle(z: Zone, r: Zone)
      requires ZoneOk(z) && r.nfree == z.nfree - 1 && r.nmax == z.nmax
      ensures r.nfree < r.nmax
    {
      WhollyFree(z);
    }

    lemma TakeLive(z: nat, r: Zone, a: int)
      requires Valid() && z in zones && z !in zoneFree && zones[z].nfree > 0
      requires TakeChunkPre(zones[z]) && (r, a) == TakeChunk(zones[z])
      ensures !LiveAt(a) && forall x :: Live(zones[z := r], zoneFree, x) <==> LiveAt(x) || x == a
      ensures InPlace(z, r, zoneSize)
    {
      TakeChunkOk(zones[z]);
      forall x ensures Live(zones[z := r], zoneFree, x) <==> LiveAt(x) || x == a {
        LiveUpdate(zones, zoneFree, z, r, x);
        SplitLive(z, x);
      }
      if LiveAt(a) {
        var y :| y in zones && y !in zoneFree && LiveChunk(zones[y], a);
        Elsewhere(z, r, y, a);
      }
    }

    lemma SplitLive(z: nat, x: int)
      requires z in zones && z !in zoneFree
      ensures LiveAt(x) <==> LiveChunk(zones[z], x) || exists y ::
        y in zones && y !in zoneFree && y != z && LiveChunk(zones[y], x)
    {
    }

    /** A chunk of zone `z`, used or not, is not a chunk of another zone. */
    lemma Elsewhere(z: nat, r: Zone, y: nat, a: int)
      requires Valid() && z in zones && z !in zoneFree && ZoneOk(r) && InPlace(z, r, zoneSize) && IsChunk(r, a)
      requires y in zones && y !in zoneFree && IsChunk(zones[y], a)
      ensures y == z
    {
      UsageLeadsHome(zones, zoneFree, zoneSize, large, memusage[..], pages.runs, y, a);
      ChunkInside(z, r, zoneSize, a);
      assert ZonePages(z, zoneSize / PAGE, memusage[..], pages.runs);
    }

    /** Pages for a new zone: taken from the page allocator and marked with their distance. */
    method CarvePages() returns (b: P.Link)
      requires Valid()
      modifies pages, pages.head, memusage
      ensures pages.Valid() && b.Null? ==> Valid()
      ensures b == P.Null ==> Valid() && pages.runs == old(pages.runs) && NoRange(pages.runs, zoneSize / PAGE)
      ensures b.At? ==> pages.Valid() && b.page !in zones && b.page + zoneSize / PAGE <= memusage.Length
      ensures b.At? ==> Layout(zones.Keys + {b.page}, zoneSize / PAGE, large, memusage[..], pages.runs)
      ensures b.At? ==> R.Taken(old(pages.runs), pages.runs, b.page, zoneSize / PAGE)
      ensures b.At? ==> NoneLost(first, memusage.Length, zones.Keys + {b.page}, zoneSize / PAGE, large, pages.runs)
    {
      var cnt := zoneSize / PAGE;
      b := pages.Alloc(cnt);
      if b.At? {
        ghost var usage, runs0 := memusage[..], old(pages.runs);
        FreshPages(zones.Keys, cnt, large, usage, runs0, b.page, cnt);
        InHeap(b.page, cnt, runs0);
        MarkPages(b.page, cnt, SmallPage);
        CarvedLayout(zones.Keys, cnt, large, usage, runs0, memusage[..], pages.runs, b.page);
        CarvedKept(first, memusage.Length, zones.Keys, cnt, large, runs0, pages.runs, b.page);
      }
    }

    lemma InHeap(b: nat, n: nat, runs: seq<R.Run>)
      requires n > 0 && R.FreeRange(runs, b, n) && forall p :: R.FreePage(runs, p) ==> p < memusage.Length
      ensures b + n <= memusage.Length
    {
      assert R.FreePage(runs, b + n - 1);
    }

    /** The loops over memusage when a zone is carved or its pages are given back. */
    method MarkPages(z: nat, cnt: nat, kind: PageType)
      requires z + cnt <= memusage.Length
      modifies memusage
      ensures forall p :: 0 <= p < memusage.Length && !(z <= p < z + cnt) ==> memusage[p] == old(memusage[p])
      ensures forall p :: z <= p < z + cnt ==> memusage[p] == Usage(kind, if kind == SmallPage then p - z else 0)
    {
      for off := 0 to cnt
        invariant forall p :: 0 <= p < memusage.Length && !(z <= p < z + off) ==> memusage[p] == old(memusage[p])
        invariant forall p :: z <= p < z + off ==> memusage[p] == Usage(kind, if kind == SmallPage then p - z else 0)
      {
        memusage[z + off] := Usage(kind, if kind == SmallPage then off else 0);
      }
    }

    /** Setting up a zone record and handing out its first chunk. */
    method Install(z: nat, zi: int, size: int, ghost zoneFree0: seq<nat>) returns (a: int)
      requires pages.Valid() && memusage.Length == pages.head.Length && ZonesFine(zones, zoneFree0, zoneSize)
      requires zoneLimit == if zoneSize / 4 > 16384 then 16384 else zoneSize / 4
      requires Lists(zones, zoneFree0, zoneArray) && OneIdle(zones, zoneArray, {})
      requires Layout(zones.Keys + {z}, zoneSize / PAGE, large, memusage[..], pages.runs)
      requires NoneLost(first, memusage.Length, zones.Keys + {z}, zoneSize / PAGE, large, pages.runs)
      requires 0 <= zi < NZONES && size == ChunkOf(zi) && 0 < size <= zoneSize / 4
      requires if z in zones then zoneFree0 != [] && z == zoneFree0[0] && zoneFree == zoneFree0[1..]
        else zoneFree == zoneFree0
      modifies this`zones, this`zoneArray
      ensures Valid()
      ensures !Live(old(zones), zoneFree0, a) && forall x :: LiveAt(x) <==> Live(old(zones), zoneFree0, x) || x == a
      ensures exists y :: y in zones && y !in zoneFree && zones[y].zoneindex == zi && LiveChunk(zones[y], a)
    {
      NewZoneOk(z, zi, zoneSize);
      var r := NewZone(z, zi, size, zoneSize);
      ListsNew(zones, zoneFree0, zoneFree, zoneArray, z, r);
      OffList(zoneFree0, zoneFree, z, zones);
      forall x ensures Live(zones[z := r], zoneFree, x) <==> Live(zones, zoneFree0, x) || x == r.baseptr {
        InstallLive(zones, zoneFree0, zoneFree, z, r, x);
      }
      NotYetLive(z, r, zoneFree0);
      IdlePut(zones, zoneArray, zi, z, r);
      assert zones[z := r].Keys == zones.Keys + {z};
      zones := zones[z := r];
      zoneArray := zoneArray[zi := [z] + zoneArray[zi]];
      a := r.baseptr;
      assert z in zones && z !in zoneFree && LiveChunk(zones[z], a);
    }

    lemma NotYetLive(z: nat, r: Zone, zoneFree0: seq<nat>)
      requires ZonesFine(zones, zoneFree0, zoneSize) && (z in zones ==> z in zoneFree0)
      requires Layout(zones.Keys + {z}, zoneSize / PAGE, large, memusage[..], pages.runs)
      requires ZoneOk(r) && InPlace(z, r, zoneSize) && LiveChunk(r, r.baseptr)
      ensures !Live(zones, zoneFree0, r.baseptr)
    {
      var a := r.baseptr;
      if Live(zones, zoneFree0, a) {
        var y :| y in zones && y !in zoneFree0 && LiveChunk(zones[y], a);
        ChunkInside(y, zones[y], zoneSize, a);
        ChunkInside(z, r, zoneSize, a);
        SharedPage(zones.Keys + {z}, zoneSize / PAGE, large, memusage[..], pages.runs, y, z, a / PAGE);
      }
    }

    /** rt_malloc when no zone of the index has a free chunk. */
    method NewZoneFor(zi: int, size: int) returns (p: Ptr)
      requires Valid() && 0 <= zi < NZONES && size == ChunkOf(zi) && 0 < size <= zoneSize / 4
      modifies this, pages, pages.head, memusage
      ensures Valid() && large == old(large)
      ensures p == Null ==>
        zones == old(zones) && zoneFree == old(zoneFree) && zoneArray == old(zoneArray) && pages.runs == old(pages.runs)
      ensures p == Null ==> zoneFree == [] && NoRange(pages.runs, zoneSize / PAGE)
      ensures p.At? ==> !old(LiveAt(p.addr)) && forall x :: LiveAt(x) <==> old(LiveAt(x)) || x == p.addr
      ensures p.At? ==> exists z ::
        z in zones && z !in zoneFree && zones[z].zoneindex == zi && LiveChunk(zones[z], p.addr)
    {
      var z: nat;
      ghost var zoneFree0 := zoneFree;
      if zoneFree != [] {
        z := zoneFree[0];
        assert z in zoneFree;
        assert zones.Keys + {z} == zones.Keys;
        zoneFree := zoneFree[1..];
      } else {
        var b := CarvePages();
        if b.Null? {
          return Null;
        }
        z := b.page;
      }
      var a := Install(z, zi, size, zoneFree0);
      p := At(a);
    }

    /** rt_malloc of a request too large for a zone: whole pages. */
    method MallocLarge(size: nat) returns (p: Ptr)
      requires Valid() && size > 0
      modifies this, pages, pages.head, memusage
      ensures Valid() && zones == old(zones) && zoneFree == old(zoneFree) && zoneArray == old(zoneArray)
      ensures p == Null ==>
        large == old(large) && pages.runs == old(pages.runs) && NoRange(pages.runs, (size + PAGE - 1) / PAGE)
      ensures p.At? ==> p.addr >= 0 && p.addr % PAGE == 0 && p.addr / PAGE !in old(large)
      ensures p.At? ==> large == old(large)[p.addr / PAGE := (size + PAGE - 1) / PAGE]
      ensures p.At? ==> R.FreeRange(old(pages.runs), p.addr / PAGE, (size + PAGE - 1) / PAGE)
    {
      var bytes := RoundUp(size, PAGE);
      var n: nat := bytes / PAGE;
      assert n == (size + PAGE - 1) / PAGE && n > 0;
      var b := pages.Alloc(n);
      if b.Null? {
        LayoutFrame(zones.Keys, zoneSize / PAGE, large, memusage[..], old(pages.runs), memusage[..], pages.runs);
        return Null;
      }
      ghost var usage := memusage[..];
      FreshPages(zones.Keys, zoneSize / PAGE, large, usage, old(pages.runs), b.page, n);
      InHeap(b.page, n, old(pages.runs));
      memusage[b.page] := Usage(LargePage, n);
      LargeLayout(zones.Keys, zoneSize / PAGE, large, usage, old(pages.runs), memusage[..], pages.runs, b.page, n);
      LargeKept(first, memusage.Length, zones.Keys, zoneSize / PAGE, large, old(pages.runs), pages.runs, b.page, n);
      large := large[b.page := n];
      p := At(b.page * PAGE);
    }

    /** rt_malloc */
    method Malloc(size: nat) returns (p: Ptr)
      requires Valid()
      modifies this, pages, pages.head, memusage
      ensures Valid()
      ensures size < zoneLimit ==> large == old(large)
      ensures size >= zoneLimit ==> zones == old(zones) && zoneFree == old(zoneFree)
      ensures p == Null ==>
        zones == old(zones) && zoneFree == old(zoneFree) && large == old(large) && pages.runs == old(pages.runs)
      ensures p == Null && size > 0 ==>
        NoRange(pages.runs, if size < zoneLimit then zoneSize / PAGE else (size + PAGE - 1) / PAGE)
      ensures p.At? && size < zoneLimit ==>
        !old(LiveAt(p.addr)) && (forall x :: LiveAt(x) <==> old(LiveAt(x)) || x == p.addr) && ServedBy(size, p.addr)
      ensures p.At? && size >= zoneLimit ==>
        p.addr >= 0 && p.addr % PAGE == 0 && p.addr / PAGE !in old(large) &&
          large == old(large)[p.addr / PAGE := (size + PAGE - 1) / PAGE]
    {
      if size == 0 {
        return Null;
      }
      if size >= zoneLimit {
        p := MallocLarge(size);
        return;
      }
      var zi, n := ZoneIndex(size);
      ChunkFitsZone(size, zi, n, zoneSize, zoneLimit);
      if zoneArray[zi] != [] {
        var a := TakeFrom(zi);
        p := At(a);
      } else {
        p := NewZoneFor(zi, n);
      }
    }

    /** rt_free */
    method Free(p: Ptr)
      requires Valid()
      requires p.At? ==> LiveAt(p.addr) || (p.addr >= 0 && p.addr % PAGE == 0 && p.addr / PAGE in large)
      modifies this, pages, pages.head, memusage
      ensures Valid()
      ensures p == Null ==>
        zones == old(zones) && zoneFree == old(zoneFree) && large == old(large) && pages.runs == old(pages.runs)
      ensures p.At? && old(LiveAt(p.addr)) ==> large == old(large) && forall x :: LiveAt(x) <==>
        old(LiveAt(x)) && x != p.addr
      ensures p.At? && !old(LiveAt(p.addr)) ==> zones == old(zones) && zoneFree == old(zoneFree)
      ensures p.At? && !old(LiveAt(p.addr)) ==> large == old(large) - {p.addr / PAGE}
      ensures p.At? && !old(LiveAt(p.addr)) ==>
        R.Given(old(pages.runs), pages.runs, p.addr / PAGE, old(large)[p.addr / PAGE])
    {
      if p == Null {
        return;
      }
      if LiveAt(p.addr) {
        EntryOfChunk(p.addr);
      } else {
        assert LargePages(p.addr / PAGE, large[p.addr / PAGE], memusage[..], pages.runs);
      }
      var entry := memusage[p.addr / PAGE];
      if entry.kind == LargePage {
        FreeLarge(p.addr / PAGE, entry.size);
      } else {
        FreeChunk(p.addr / PAGE - entry.size, p.addr);
      }
    }

    lemma EntryOfChunk(a: int)
      requires Valid() && LiveAt(a)
      ensures 0 <= a / PAGE < memusage.Length && memusage[a / PAGE].kind == SmallPage
      ensures var z := a / PAGE - memusage[a / PAGE].size;
        z >= 0 && z in zones && z !in zoneFree && LiveChunk(zones[z], a)
    {
      var z :| z in zones && z !in zoneFree && LiveChunk(zones[z], a);
      UsageLeadsHome(zones, zoneFree, zoneSize, large, memusage[..], pages.runs, z, a);
    }

    /** The branch of rt_free for whole pages. */
    method FreeLarge(b: nat, n: nat)
      requires Valid() && b in large && n == large[b]
      modifies this`large, pages, pages.head, memusage
      ensures Valid() && large == old(large) - {b} && R.Given(old(pages.runs), pages.runs, b, n)
    {
      ghost var usage, runs := memusage[..], pages.runs;
      assert LargePages(b, n, usage, runs);
      memusage[b] := Usage(LargePage, 0);
      pages.Free(b, n);
      WithoutLarge(zones.Keys, zoneSize / PAGE, large, usage, runs, memusage[..], pages.runs, b);
      LargeReturned(first, memusage.Length, zones.Keys, zoneSize / PAGE, large, runs, pages.runs, b);
      large := large - {b};
    }

    /** The branch of rt_free for a chunk of zone `z`. */
    method FreeChunk(z: nat, a: int)
      requires Valid() && z in zones && z !in zoneFree && LiveChunk(zones[z], a)
      modifies this, pages, pages.head, memusage
      ensures Valid() && large == old(large)
      ensures forall x :: LiveAt(x) <==> old(LiveAt(x)) && x != a
    {
      Return(z, a);
      if zones[z].nfree == zones[z].nmax && |zoneArray[zones[z].zoneindex]| > 1 {
        Retire(z);
      } else {
        IdleAlone(zones, zoneFree, zoneArray, zones[z].zoneindex, z);
      }
    }

    /** Putting a chunk back on its zone's list, and the zone on the list of its index if it was full. */
    method Return(z: nat, a: int)
      requires Valid() && z in zones && z !in zoneFree && LiveChunk(zones[z], a)
      modifies this`zones, this`zoneArray
      ensures Sound() && OneIdle(zones, zoneArray, {z})
      ensures z in zones && z !in zoneFree && 0 <= zones[z].zoneindex < NZONES && z in zoneArray[zones[z].zoneindex]
      ensures forall x :: LiveAt(x) <==> old(LiveAt(x)) && x != a
    {
      PutChunkOk(zones[z], a);
      PutLive(z, a);
      var r := PutChunk(zones[z], a);
      var zi := r.zoneindex;
      ListsPut(zones, zoneFree, zoneArray, z, r);
      IdlePut(zones, zoneArray, zi, z, r);
      assert zones[z := r].Keys == zones.Keys;
      if zones[z].nfree == 0 {
        zoneArray := zoneArray[zi := [z] + zoneArray[zi]];
      }
      zones := zones[z := r];
      assert Listed(zones, zoneFree, zi, z);
    }

    lemma PutLive(z: nat, a: int)
      requires Valid() && z in zones && z !in zoneFree && LiveChunk(zones[z], a)
      ensures var r := PutChunk(zones[z], a);
        forall x :: Live(zones[z := r], zoneFree, x) <==> LiveAt(x) && x != a
      ensures InPlace(z, PutChunk(zones[z], a), zoneSize) && zones[z].nfree >= 0
    {
      var r := PutChunk(zones[z], a);
      PutChunkOk(zones[z], a);
      forall x ensures Live(zones[z := r], zoneFree, x) <==> LiveAt(x) && x != a {
        LiveUpdate(zones, zoneFree, z, r, x);
        SplitLive(z, x);
        if x == a {
          forall y | y in zones && y !in zoneFree && LiveChunk(zones[y], a) ensures y == z {
            Elsewhere(z, zones[z], y, a);
          }
        }
      }
    }

    /** A wholly free zone that is not the only one on its list joins the whole free zones, and above
        the threshold gives its pages back. */
    method Retire(z: nat)
      requires Sound() && OneIdle(zones, zoneArray, {z}) && z in zones && z !in zoneFree && Idle(zones, z)
      requires 0 <= zones[z].zoneindex < NZONES && z in zoneArray[zones[z].zoneindex]
      modifies this, pages, pages.head, memusage
      ensures Valid() && large == old(large)
      ensures forall x :: LiveAt(x) <==> old(LiveAt(x))
    {
      WhollyFree(zones[z]);
      var zi := zones[z].zoneindex;
      var k := 0;
      while zoneArray[zi][k] != z
        invariant k < |zoneArray[zi]| && z !in zoneArray[zi][..k]
        decreases |zoneArray[zi]| - k
      {
        k := k + 1;
      }
      ListsRetire(zones, zoneFree, zoneArray, zi, k);
      IdleCut(zones, zoneFree, zoneArray, zi, k);
      forall x
        ensures Live(zones, [z] + zoneFree, x) <==> Live(zones, zoneFree, x)
      {
        RetireLive(zones, zoneFree, z, x);
      }
      zoneArray := zoneArray[zi := Cut(zoneArray[zi], k)];
      zoneFree := [z] + zoneFree;
      if |zoneFree| > ZONE_RELEASE_THRESH {
        Release();
      }
    }

    /** Giving the pages of the first whole free zone back. */
    method Release()
      requires pages.Valid() && memusage.Length == pages.head.Length && ZonesFine(zones, zoneFree, zoneSize)
      requires zoneLimit == if zoneSize / 4 > 16384 then 16384 else zoneSize / 4
      requires ListsRetired(zones, zoneFree, zoneArray) && OneIdle(zones, zoneArray, {})
      requires NoneLost(first, memusage.Length, zones.Keys, zoneSize / PAGE, large, pages.runs)
      requires Layout(zones.Keys, zoneSize / PAGE, large, memusage[..], pages.runs)
      modifies this`zones, this`zoneFree, pages, pages.head, memusage
      ensures Valid() && forall x :: LiveAt(x) <==> old(LiveAt(x))
      ensures R.Given(old(pages.runs), pages.runs, old(zoneFree)[0], zoneSize / PAGE)
    {
      var z, cnt := zoneFree[0], zoneSize / PAGE;
      ghost var usage, runs := memusage[..], pages.runs;
      ListsRelease(zones, zoneFree, zoneArray);
      forall x
        ensures Live(zones - {z}, zoneFree[1..], x) <==> Live(zones, zoneFree, x)
      {
        ReleaseLive(zones, zoneFree, x);
      }
      assert ZonePages(z, cnt, usage, runs);
      MarkPages(z, cnt, FreePage);
      pages.Free(z, cnt);
      WithoutZone(zones.Keys, cnt, large, usage, runs, memusage[..], pages.runs, z);
      KeysMinus(zones, z);
      StillFine(zones, zoneFree, zoneSize);
      IdleRelease(zones, zoneArray, z);
      ZoneReturned(first, memusage.Length, zones.Keys, cnt, large, runs, pages.runs, z);
      zones, zoneFree := zones - {z}, zoneFree[1..];
    }

    /** The chunk at `a` is large enough for `size` bytes, of the smallest chunk size that is. */
    ghost predicate ServedBy(size: int, a: int)
      reads this
    {
      exists z :: z in zones && z !in zoneFree && LiveChunk(zones[z], a) &&
        BestIndex(size, zones[z].zoneindex, ChunkOf(zones[z].zoneindex))
    }
  }
}
