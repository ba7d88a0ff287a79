/** The small-memory heap of rt-thread/src/mem.c. Headers live in the managed memory itself:
    `mem` has one cell per byte offset from heap_ptr, and a header field is held in the cell
    of its first byte. */
module SmallHeap {
  import opened HeapBlocks
  import opened SmallHeapSpec
  import opened SmallHeapTheorems

  const HEAP_MAGIC: int := 0x1ea0

  /** Field offsets in struct heap_mem. */
  const USED: nat := 2
  const NEXT: nat := 4
  const PREV: nat := 8

  /** A cell of some live block's payload. */
  ghost predicate PayloadCell(live: set<Block>, c: int) {
    exists b :: b in live && b.off + HDR <= c < b.end
  }

  datatype HeapMem = HeapMem(magic: int, used: int, next: int, prev: int)

  function Hdr(used: bool, next: int, prev: int): HeapMem {
    HeapMem(HEAP_MAGIC, if used then 1 else 0, next, prev)
  }

  predicate HeaderCell(o: nat, c: int) {
    o <= c < o + HDR
  }

  function PrevOff(a: seq<Block>, i: nat): nat
    requires i < |a|
  {
    if i == 0 then 0 else a[i - 1].off
  }

  /** A block cut in two at `mid`; the part behind it is free. */
  function Halves(b: Block, mid: nat): seq<Block> {
    [Block(b.off, mid, b.used), Block(mid, b.end, false)]
  }

  predicate OutsideSplit(b: Block, mid: nat, c: int) {
    !HeaderCell(b.off, c) && !HeaderCell(mid, c) && !HeaderCell(b.end, c)
  }

  lemma SplitTiles(a: seq<Block>, k: nat, mid: nat, end: nat)
    requires Tiles(a, 0, end) && k < |a| && a[k].off < mid < a[k].end
    ensures Tiles(Splice(a, k, k + 1, Halves(a[k], mid)), 0, end)
  {
    Ordered(a, 0, end);
    TwoBlocks(Block(a[k].off, mid, a[k].used), Block(mid, a[k].end, false));
    SpliceTiles(a, k, k + 1, Halves(a[k], mid), 0, end);
  }

  lemma MarkTiles(a: seq<Block>, k: nat, used: bool, end: nat)
    requires Tiles(a, 0, end) && k < |a|
    ensures Tiles(a[k := a[k].(used := used)], 0, end)
  {
    Ordered(a, 0, end);
    var mid := [a[k].(used := used)];
    assert mid[1..] == [];
    SpliceTiles(a, k, k + 1, mid, 0, end);
    assert Splice(a, k, k + 1, mid) == a[k := a[k].(used := used)];
  }

  /** The header stored at offset `o` of memory `m`. */
  function HeaderAt(m: seq<int>, o: nat): HeapMem
    requires o + HDR <= |m|
  {
    HeapMem(m[o], m[o + USED], m[o + NEXT], m[o + PREV])
  }

  /** The header of block `i` of `a` is in memory. */
  ghost predicate HeaderOf(m: seq<int>, a: seq<Block>, i: nat, end: nat)
    requires i < |a|
  {
    var o := a[i].off;
    && o + HDR <= a[i].end <= end && |m| == end + HDR
    && HeaderAt(m, o) == Hdr(a[i].used, a[i].end, PrevOff(a, i))
  }

  /** The headers in memory spell out the block list `a`; heap_end's prev is not relied upon. */
  ghost predicate Linked(m: seq<int>, a: seq<Block>, end: nat) {
    && |m| == end + HDR && Tiles(a, 0, end)
    && (forall i :: 0 <= i < |a| ==> HeaderOf(m, a, i, end))
    && m[end] == HEAP_MAGIC && m[end + USED] == 1 && m[end + NEXT] == end
  }

  /** Headers apart from the two around a changed one are where they were. */
  lemma OtherHeader(m: seq<int>, m': seq<int>, a: seq<Block>, k: nat, mid: nat, end: nat, j: nat)
    requires Linked(m, a, end) && |m'| == |m| && k < |a| && a[k].off < mid && mid + HDR < a[k].end
    requires forall c :: 0 <= c < |m| && OutsideSplit(a[k], mid, c) ==> m'[c] == m[c]
    requires j < |a| && j != k && j != k + 1
    ensures a[j].off + HDR <= a[j].end <= end && HeaderAt(m', a[j].off) == Hdr(a[j].used, a[j].end, PrevOff(a, j))
  {
    assert HeaderOf(m, a, j, end);
    Ordered(a, 0, end);
    if j < k { assert a[j].end <= a[k].off; } else { assert a[k].end == a[k + 1].off && a[k + 1].end <= a[j].off; }
    assert HeaderOf(m, a, if j < k then j else k + 1, end);
  }

  /** Writing a header for `mid` inside block `k`, and repairing its neighbours' links. */
  lemma SplitLinked(m: seq<int>, m': seq<int>, a: seq<Block>, k: nat, mid: nat, end: nat)
    requires Linked(m, a, end) && |m'| == |m| && k < |a| && a[k].off + HDR < mid && mid + HDR < a[k].end <= end
    requires HeaderAt(m', a[k].off) == Hdr(a[k].used, mid, PrevOff(a, k))
    requires HeaderAt(m', mid) == Hdr(false, a[k].end, a[k].off)
    requires k + 1 < |a| ==>
      a[k + 1].off + HDR <= |m| && HeaderAt(m', a[k + 1].off) == Hdr(a[k + 1].used, a[k + 1].end, mid)
    requires forall c :: 0 <= c < |m| && OutsideSplit(a[k], mid, c) ==> m'[c] == m[c]
    requires HeaderAt(m', end) == HeaderAt(m, end)
    ensures Linked(m', Splice(a, k, k + 1, Halves(a[k], mid)), end)
  {
    var r := Splice(a, k, k + 1, Halves(a[k], mid));
    SplitTiles(a, k, mid, end);
    forall i | 0 <= i < |r| ensures HeaderOf(m', r, i, end) {
      if i < k {
        OtherHeader(m, m', a, k, mid, end, i);
        assert r[i] == a[i];
      } else if i == k || i == k + 1 {
        assert r[i] == Halves(a[k], mid)[i - k];
        assert i == k && k > 0 ==> r[k - 1] == a[k - 1];
      } else if i == k + 2 {
        assert HeaderOf(m, a, k + 1, end);
        assert r[i] == a[k + 1] && r[i - 1] == Halves(a[k], mid)[1];
      } else {
        OtherHeader(m, m', a, k, mid, end, i - 1);
        assert r[i] == a[i - 1] && r[i - 1] == a[i - 2];
      }
    }
  }

  /** Rewriting the used flag of block `k`. */
  lemma MarkLinked(m: seq<int>, m': seq<int>, a: seq<Block>, k: nat, used: bool, end: nat)
    requires Linked(m, a, end) && |m'| == |m| && k < |a| && a[k].off + HDR <= end
    requires HeaderAt(m', a[k].off) == Hdr(used, a[k].end, PrevOff(a, k))
    requires forall c :: 0 <= c < |m| && !HeaderCell(a[k].off, c) ==> m'[c] == m[c]
    ensures Linked(m', a[k := a[k].(used := used)], end)
  {
    var r := a[k := a[k].(used := used)];
    MarkTiles(a, k, used, end);
    Ordered(a, 0, end);
    assert HeaderOf(m, a, k, end);
    forall i | 0 <= i < |r| ensures HeaderOf(m', r, i, end) {
      assert HeaderOf(m, a, i, end);
    }
  }

  /** Blocks `k` and `k + 1` of `a` as one. */
  function Joined(a: seq<Block>, k: nat): seq<Block>
    requires k + 1 < |a|
  {
    Splice(a, k, k + 2, [Block(a[k].off, a[k + 1].end, a[k].used)])
  }

  lemma JoinedAt(a: seq<Block>, k: nat, i: nat)
    requires k + 1 < |a| && i < |Joined(a, k)|
    ensures Joined(a, k)[i] ==
      if i < k then a[i] else if i == k then Block(a[k].off, a[k + 1].end, a[k].used) else a[i + 1]
  {
  }

  lemma JoinTiles(a: seq<Block>, k: nat, end: nat)
    requires Tiles(a, 0, end) && k + 1 < |a|
    ensures Tiles(Joined(a, k), 0, end)
    ensures !a[k].used && !a[k + 1].used ==> Live(Joined(a, k)) == Live(a)
  {
    Ordered(a, 0, end);
    var mid := [Block(a[k].off, a[k + 1].end, a[k].used)];
    assert mid[1..] == [];
    SpliceTiles(a, k, k + 2, mid, 0, end);
    SpliceLive(a, k, k + 2, mid, 0, end);
    assert a[k..k + 2] == [a[k], a[k + 1]];
    TwoBlocks(a[k], a[k + 1]);
  }

  /** Joining two free blocks moves a free block's start only if it was the second one. */
  lemma JoinStart(a: seq<Block>, k: nat, x: nat, y: nat, end: nat)
    requires Tiles(a, 0, end) && k + 1 < |a| && !a[k].used && !a[k + 1].used && StartOfFree(a, x, y, end)
    ensures StartOfFree(Joined(a, k), x, if y == a[k + 1].off then a[k].off else y, end)
  {
    Ordered(a, 0, end);
    var r := Joined(a, k);
    if x != end {
      var i :| 0 <= i < |a| && !a[i].used && a[i].off == y <= x < a[i].end;
      var i' := if i <= k then i else i - 1;
      JoinedAt(a, k, i');
    }
  }

  lemma StartItself(a: seq<Block>, x: nat, end: nat)
    requires Tiles(a, 0, end) && (x == end || IsFreeAt(a, x))
    ensures StartOfFree(a, x, x, end)
  {
    Ordered(a, 0, end);
  }

  /** Joining two free blocks keeps the other pairs of neighbours as they are. */
  lemma JoinPairs(a: seq<Block>, k: nat)
    requires k + 1 < |a| && !a[k].used && !a[k + 1].used && a[k].end == a[k + 1].off
    requires forall i :: 0 <= i < |a| ==> Proper(a[i])
    requires forall i, j :: 0 <= i < |a| && j == i + 1 < |a| && i != k && j != k && i != k + 1 ==>
      a[i].used || a[j].used
    requires k + 2 < |a| ==> a[k + 2].used
    ensures forall i :: 0 <= i < |Joined(a, k)| ==> Proper(Joined(a, k)[i])
    ensures forall i, j :: 0 <= i < |Joined(a, k)| && j == i + 1 < |Joined(a, k)| && j != k ==>
      Joined(a, k)[i].used || Joined(a, k)[j].used
    ensures (k > 0 ==> a[k - 1].used) ==> NoTwoFree(Joined(a, k))
  {
    var r := Joined(a, k);
    forall i | 0 <= i < |r| ensures Proper(r[i]) { JoinedAt(a, k, i); }
    forall i, j | 0 <= i < |r| && j == i + 1 < |r| && j != k ensures r[i].used || r[j].used {
      JoinedAt(a, k, i);
      JoinedAt(a, k, j);
    }
    if k > 0 { JoinedAt(a, k, k - 1); JoinedAt(a, k, k); }
  }

  /** Linking block `k` past block `k + 1`. */
  lemma JoinLinked(m: seq<int>, m': seq<int>, a: seq<Block>, k: nat, end: nat)
    requires Linked(m, a, end) && |m'| == |m| && k + 1 < |a| && a[k].off + HDR <= end
    requires HeaderAt(m', a[k].off) == Hdr(a[k].used, a[k + 1].end, PrevOff(a, k))
    requires k + 2 < |a| ==>
      a[k + 2].off + HDR <= end && HeaderAt(m', a[k + 2].off) == Hdr(a[k + 2].used, a[k + 2].end, a[k].off)
    requires forall c :: 0 <= c < |m| && !HeaderCell(a[k].off, c) && !HeaderCell(a[k + 1].end, c) ==> m'[c] == m[c]
    requires m'[end] == m[end] && m'[end + USED] == m[end + USED] && m'[end + NEXT] == m[end + NEXT]
    ensures Linked(m', Joined(a, k), end)
  {
    var r := Joined(a, k);
    JoinTiles(a, k, end);
    assert a[k].off + HDR < a[k + 1].end <= end by {
      assert HeaderOf(m, a, k, end) && HeaderOf(m, a, k + 1, end);
      Ordered(a, 0, end);
    }
    forall i | 0 <= i < |r| ensures HeaderOf(m', r, i, end) {
      JoinedAt(a, k, i);
      if i > 0 { JoinedAt(a, k, i - 1); }
      var j := if i <= k then i else i + 1;
      assert HeaderOf(m, a, j, end);
      if j != k && j != k + 2 { ApartFromJoin(m, m', a, k, end, j); }
    }
  }

  lemma ApartFromJoin(m: seq<int>, m': seq<int>, a: seq<Block>, k: nat, end: nat, j: nat)
    requires Linked(m, a, end) && |m'| == |m| && k + 1 < |a|
    requires forall c :: 0 <= c < |m| && !HeaderCell(a[k].off, c) && !HeaderCell(a[k + 1].end, c) ==> m'[c] == m[c]
    requires j < |a| && j != k && j != k + 1 && j != k + 2
    ensures a[j].off + HDR <= |m| && HeaderAt(m', a[j].off) == Hdr(a[j].used, a[j].end, PrevOff(a, j))
  {
    Ordered(a, 0, end);
    assert HeaderOf(m, a, j, end);
    if j < k { assert a[j].end <= a[k].off; }
    else {
      assert HeaderOf(m, a, k, end) && HeaderOf(m, a, k + 2, end);
      assert a[k].end <= a[j].off && a[k + 1].end == a[k + 2].off && a[k + 2].end <= a[j].off;
    }
  }

  /** Header cells of a block list are not payload cells. */
  lemma HeaderNotPayload(m: seq<int>, a: seq<Block>, end: nat, k: nat, c: int)
    requires Linked(m, a, end) && k <= |a| && HeaderCell(OffAt(a, k, end), c)
    ensures !PayloadCell(Live(a), c)
  {
    Ordered(a, 0, end);
    LiveIn(a);
    if k < |a| { assert HeaderOf(m, a, k, end); }
  }

  /** Index of the free block at `x`, or the number of blocks for heap_end. */
  ghost function IndexOf(a: seq<Block>, x: nat, end: nat): (k: nat)
    requires x == end || IsFreeAt(a, x)
    ensures k <= |a| && x == OffAt(a, k, end)
  {
    if x == end then |a| else var k :| 0 <= k < |a| && a[k].off == x && !a[k].used; k
  }

  lemma NextOff(a: seq<Block>, k: nat, end: nat)
    requires Tiles(a, 0, end) && k < |a|
    ensures a[k].end == OffAt(a, k + 1, end) && a[k].off < a[k].end
  {
    Ordered(a, 0, end);
  }

  /** From block `k` on nothing fits once the scan bound is passed. */
  lemma TooFar(a: seq<Block>, k: nat, size: nat, end: nat)
    requires Tiles(a, 0, end) && k <= |a| && OffAt(a, k, end) >= end - HDR - size
    ensures forall j :: k <= j < |a| ==> !Fits(a[j], size, end)
  {
    Ordered(a, 0, end);
    assert forall j :: k <= j < |a| ==> a[j].off >= OffAt(a, k, end);
  }

  /** Blocks before the one at lfree lie below it. */
  lemma LfreeIndex(a: seq<Block>, k: nat, x: nat, end: nat)
    requires Tiles(a, 0, end) && k <= |a| && x == OffAt(a, k, end)
    ensures forall j :: 0 <= j < |a| ==> (a[j].off < x <==> j < k)
  {
    Ordered(a, 0, end);
  }

  /** Marking live block `k` free: the live blocks lose it, and only its own pairs may be free twice. */
  lemma FreeFacts(a: seq<Block>, k: nat, lfree: nat, end: nat)
    requires Canonical(a, end) && k < |a| && a[k].used && (lfree == end || IsFreeAt(a, lfree))
    ensures var r := a[k := a[k].(used := false)];
      && Live(r) == Live(a) - {a[k]} && a[k] in Live(a) && a[k].off < end
      && (lfree == end || IsFreeAt(r, lfree)) && IsFreeAt(r, a[k].off)
  {
    var mid := [a[k].(used := false)];
    var r := a[k := a[k].(used := false)];
    assert r == Splice(a, k, k + 1, mid);
    assert mid[1..] == [];
    OneBlock(a, k);
    SpliceLive(a, k, k + 1, mid, 0, end);
    LiveIn(a);
    Ordered(a, 0, end);
    if lfree != end {
      var i :| 0 <= i < |a| && a[i].off == lfree && !a[i].used;
      assert r[i] == a[i];
    }
    assert r[k].off == a[k].off;
  }

  /** Cutting live block `k`: its head stays live and its tail is free. */
  lemma ShrinkFacts(a: seq<Block>, k: nat, n: nat, lfree: nat, end: nat)
    requires Canonical(a, end) && k < |a| && a[k].used && (lfree == end || IsFreeAt(a, lfree))
    requires n % 4 == 0 && 0 < n && Shrinks(a[k], n)
    ensures var kept := Block(a[k].off, a[k].off + HDR + n, true); var r := Splice(a, k, k + 1, Halves(a[k], kept.end));
      && Live(r) == Live(a) - {a[k]} + {kept} && a[k] in Live(a)
      && (lfree == end || IsFreeAt(r, lfree)) && r[k + 1] == Halves(a[k], kept.end)[1]
  {
    var mid := Halves(a[k], a[k].off + HDR + n);
    var r := Splice(a, k, k + 1, mid);
    OneBlock(a, k);
    TwoBlocks(mid[0], mid[1]);
    SpliceLive(a, k, k + 1, mid, 0, end);
    LiveIn(a);
    if lfree != end {
      var i :| 0 <= i < |a| && a[i].off == lfree && !a[i].used;
      assert r[if i < k then i else i + 1] == a[i];
    }
  }

  lemma ShrinkPairs(a: seq<Block>, k: nat, n: nat, end: nat)
    requires Canonical(a, end) && k < |a| && a[k].used && n % 4 == 0 && 0 < n && Shrinks(a[k], n)
    ensures var r := Splice(a, k, k + 1, Halves(a[k], a[k].off + HDR + n));
      && (forall i :: 0 <= i < |r| ==> Proper(r[i]))
      && (forall i, j :: 0 <= i < |r| && j == i + 1 < |r| && i != k + 1 && j != k + 1 ==> r[i].used || r[j].used)
  {
    var mid := Halves(a[k], a[k].off + HDR + n);
    var r := Splice(a, k, k + 1, mid);
    assert forall i :: 0 <= i < |r| ==> r[i] == if i < k then a[i] else if i < k + 2 then mid[i - k] else a[i - 1];
  }

  /** Clients may write any cell of their payloads: the headers are elsewhere. */
  lemma ClientWriteKeepsLinks(m: seq<int>, m': seq<int>, a: seq<Block>, end: nat)
    requires Linked(m, a, end) && |m'| == |m|
    requires forall c :: 0 <= c < |m| && !PayloadCell(Live(a), c) ==> m'[c] == m[c]
    ensures Linked(m', a, end)
  {
    forall i | 0 <= i < |a| ensures HeaderOf(m', a, i, end) {
      assert HeaderOf(m, a, i, end);
      ClientWriteKeepsHeader(m, m', a, i, end);
    }
    ClientWriteKeepsHeader(m, m', a, |a|, end);
  }

  lemma ClientWriteKeepsHeader(m: seq<int>, m': seq<int>, a: seq<Block>, k: nat, end: nat)
    requires Linked(m, a, end) && |m'| == |m| && k <= |a| && OffAt(a, k, end) + HDR <= |m|
    requires forall c :: 0 <= c < |m| && !PayloadCell(Live(a), c) ==> m'[c] == m[c]
    ensures HeaderAt(m', OffAt(a, k, end)) == HeaderAt(m, OffAt(a, k, end))
  {
    var o := OffAt(a, k, end);
    HeaderNotPayload(m, a, end, k, o);
    HeaderNotPayload(m, a, end, k, o + USED);
    HeaderNotPayload(m, a, end, k, o + NEXT);
    HeaderNotPayload(m, a, end, k, o + PREV);
  }

  /** `n` cells of `m` from `d` on are those of `m0` from `s` on. */
  ghost predicate SameBytes(m: seq<int>, d: int, m0: seq<int>, s: int, n: int) {
    && 0 <= n && 0 <= d && d + n <= |m| && 0 <= s && s + n <= |m0|
    && m[d..d + n] == m0[s..s + n]
  }

  /** A copy of what was in a live payload before, if the payload did not change in between. */
  lemma SameSource(m': seq<int>, m: seq<int>, m0: seq<int>, d: int, b: Block, n: int, live: set<Block>)
    requires SameBytes(m', d, m, b.off + HDR, n) && |m| == |m0| && b in live && n <= Payload(b)
    requires forall c :: 0 <= c < |m| && PayloadCell(live, c) ==> m[c] == m0[c]
    ensures SameBytes(m', d, m0, b.off + HDR, n)
  {
    var s := b.off + HDR;
    assert forall c :: s <= c < s + n ==> PayloadCell(live, c);
    assert m[s..s + n] == m0[s..s + n];
  }

  lemma ApartFromNew(s: State, nb: Block)
    requires forall x :: x in Live(s.blocks) ==> nb.end <= x.off || x.end <= nb.off
    ensures forall c :: PayloadCell(Live(s.blocks), c) ==> !(nb.off <= c < nb.end)
  {
  }

  /** Freeing `b` leaves the other live blocks live. */
  lemma SurvivesFree(s: State, end: nat, p: Ptr, b: Block, nb: Block, s': State)
    requires Inv(s, end) && LiveAt(s, p, b) && nb in Live(s.blocks) && nb != b && FreeStep(s, end, p, s')
    ensures nb in Live(s'.blocks)
  {
    var x :| LiveAt(s, p, x) && FreeBlock(s, end, x, s');
    SameAddress(s, end, x, b);
  }

  lemma StillThere(m: seq<int>, m': seq<int>, nb: Block, live: set<Block>, n: nat)
    requires |m'| == |m| && nb in live && n <= Payload(nb) && nb.end <= |m|
    requires forall c :: 0 <= c < |m| && PayloadCell(live, c) ==> m'[c] == m[c]
    ensures m'[nb.off + HDR..nb.off + HDR + n] == m[nb.off + HDR..nb.off + HDR + n]
  {
    assert forall c :: nb.off + HDR <= c < nb.off + HDR + n ==> PayloadCell(live, c);
  }

  class Heap {
    const mem: array<int>
    const memSize: nat       // mem_size_aligned
    var lfree: nat
    var usedMem: int
    var maxMem: int
    ghost var blocks: seq<Block>

    ghost function End(): nat {
      memSize + HDR
    }

    ghost function Abs(): State
      reads this
    {
      State(blocks, lfree, usedMem, maxMem)
    }

    ghost predicate Valid()
      reads this, mem
    {
      Linked(mem[..], blocks, End()) && Inv(Abs(), End())
    }

    /** What the header of block `i` holds, and that it lies before heap_end. */
    lemma Read(i: nat)
      requires Linked(mem[..], blocks, End()) && i < |blocks|
      ensures blocks[i].off + HDR <= blocks[i].end <= End()
      ensures mem.Length == End() + HDR
      ensures HeaderAt(mem[..], blocks[i].off) == Hdr(blocks[i].used, blocks[i].end, PrevOff(blocks, i))
    {
      assert HeaderOf(mem[..], blocks, i, End());
    }

    /** Fill in a new header. */
    method WriteHeader(o: nat, used: int, next: int, prev: int)
      requires o + HDR <= mem.Length
      modifies mem
      ensures HeaderAt(mem[..], o) == HeapMem(HEAP_MAGIC, used, next, prev)
      ensures forall c :: 0 <= c < mem.Length && !HeaderCell(o, c) ==> mem[c] == old(mem[c])
    {
      mem[o] := HEAP_MAGIC;
      mem[o + USED] := used;
      mem[o + NEXT] := next;
      mem[o + PREV] := prev;
    }

    /** Create header `ptr2` inside block `k`, as rt_malloc and rt_realloc both do. */
    method Split(ptr: nat, ptr2: nat, ghost k: nat)
      requires Linked(mem[..], blocks, End()) && k < |blocks| && blocks[k].off == ptr
      requires ptr + HDR < ptr2 && ptr2 + HDR < blocks[k].end
      modifies mem, this`blocks
      ensures blocks == Splice(old(blocks), k, k + 1, Halves(old(blocks[k]), ptr2))
      ensures Linked(mem[..], blocks, End())
      ensures forall c :: 0 <= c < mem.Length && OutsideSplit(old(blocks[k]), ptr2, c) ==> mem[c] == old(mem[c])
      ensures mem.Length == End() + HDR && (old(blocks[k]).end == End() ==> mem[End() + PREV] == old(mem[End() + PREV]))
    {
      ghost var m, b := mem[..], blocks[k];
      SplitFacts(k, ptr2);
      WriteHeader(ptr2, 0, mem[ptr + NEXT], ptr);
      mem[ptr + NEXT] := ptr2;
      if mem[ptr2 + NEXT] != memSize + HDR {
        mem[mem[ptr2 + NEXT] + PREV] := ptr2;
      }
      SplitLinked(m, mem[..], blocks, k, ptr2, End());
      blocks := Splice(blocks, k, k + 1, Halves(b, ptr2));
    }

    lemma SplitFacts(k: nat, ptr2: nat)
      requires Linked(mem[..], blocks, End()) && k < |blocks|
      ensures blocks[k].off + HDR <= blocks[k].end <= End() && mem.Length == End() + HDR
      ensures HeaderAt(mem[..], blocks[k].off) == Hdr(blocks[k].used, blocks[k].end, PrevOff(blocks, k))
      ensures k + 1 == |blocks| ==> blocks[k].end == End()
      ensures k + 1 < |blocks| ==> blocks[k].end == blocks[k + 1].off && blocks[k + 1].off + HDR <= End()
      ensures k + 1 < |blocks| ==>
        HeaderAt(mem[..], blocks[k + 1].off) == Hdr(blocks[k + 1].used, blocks[k + 1].end, blocks[k].off)
    {
      Read(k);
      Ordered(blocks, 0, End());
      if k + 1 < |blocks| { Read(k + 1); }
    }

    /** Write the used flag and magic of block `k`. */
    method Mark(ptr: nat, used: bool, ghost k: nat)
      requires Linked(mem[..], blocks, End()) && k < |blocks| && blocks[k].off == ptr
      modifies mem, this`blocks
      ensures blocks == old(blocks)[k := old(blocks[k]).(used := used)]
      ensures Linked(mem[..], blocks, End())
      ensures forall c :: 0 <= c < mem.Length && !HeaderCell(ptr, c) ==> mem[c] == old(mem[c])
    {
      ghost var m := mem[..];
      Read(k);
      mem[ptr + USED] := if used then 1 else 0;
      mem[ptr] := HEAP_MAGIC;
      MarkLinked(m, mem[..], blocks, k, used, End());
      blocks := blocks[k := blocks[k].(used := used)];
    }

    /** Move lfree from the used block `k` to the next free block. */
    method AdvanceLfree(ghost k: nat)
      requires Linked(mem[..], blocks, End()) && k < |blocks| && blocks[k].off == lfree && blocks[k].used
      modifies this`lfree
      ensures FirstFreeFrom(blocks, old(lfree), End(), lfree)
    {
      ghost var j := k;
      Ordered(blocks, 0, End());
      while mem[lfree + USED] != 0 && lfree != memSize + HDR
        invariant k <= j <= |blocks| && lfree == OffAt(blocks, j, End())
        invariant forall i :: k <= i < j ==> blocks[i].used
        decreases |blocks| - j
      {
        Read(j);
        lfree := mem[lfree + NEXT];
        j := j + 1;
      }
      if j < |blocks| {
        Read(j);
      }
    }

    /** Let block `k` swallow its successor; both parts of plug_holes end this way. */
    method Join(ptr: nat, nptr: nat, ghost k: nat)
      requires Linked(mem[..], blocks, End()) && k + 1 < |blocks| && blocks[k].off == ptr && blocks[k + 1].off == nptr
      modifies mem, this`blocks
      ensures blocks == Joined(old(blocks), k)
      ensures Linked(mem[..], blocks, End())
      ensures forall c :: 0 <= c < mem.Length && !HeaderCell(ptr, c) && !HeaderCell(old(blocks[k + 1].end), c) ==>
        mem[c] == old(mem[c])
    {
      ghost var m := mem[..];
      SplitFacts(k, 0);
      SplitFacts(k + 1, 0);
      mem[ptr + NEXT] := mem[nptr + NEXT];
      mem[mem[nptr + NEXT] + PREV] := ptr;
      JoinLinked(m, mem[..], blocks, k, End());
      blocks := Joined(blocks, k);
    }

    /** Join the free block `k` with its free neighbours. */
    method PlugHoles(ptr: nat, ghost k: nat)
      requires Linked(mem[..], blocks, End()) && k < |blocks| && blocks[k].off == ptr && !blocks[k].used
      requires forall i :: 0 <= i < |blocks| ==> Proper(blocks[i])
      requires forall i, j :: 0 <= i < |blocks| && j == i + 1 < |blocks| && i != k && j != k ==>
        blocks[i].used || blocks[j].used
      requires lfree == End() || IsFreeAt(blocks, lfree)
      modifies this`blocks, this`lfree, mem
      ensures Linked(mem[..], blocks, End()) && Canonical(blocks, End())
      ensures Live(blocks) == old(Live(blocks))
      ensures StartOfFree(blocks, old(lfree), lfree, End())
      ensures forall c :: 0 <= c < mem.Length && PayloadCell(old(Live(blocks)), c) ==> mem[c] == old(mem[c])
    {
      PlugForward(ptr, k);
      PlugBackward(ptr, k, old(lfree));
    }

    method PlugForward(ptr: nat, ghost k: nat)
      requires Linked(mem[..], blocks, End()) && k < |blocks| && blocks[k].off == ptr && !blocks[k].used
      requires forall i :: 0 <= i < |blocks| ==> Proper(blocks[i])
      requires forall i, j :: 0 <= i < |blocks| && j == i + 1 < |blocks| && i != k && j != k ==>
        blocks[i].used || blocks[j].used
      requires lfree == End() || IsFreeAt(blocks, lfree)
      modifies this`blocks, this`lfree, mem
      ensures Linked(mem[..], blocks, End()) && k < |blocks| && blocks[k].off == ptr && !blocks[k].used
      ensures forall i :: 0 <= i < |blocks| ==> Proper(blocks[i])
      ensures forall i, j :: 0 <= i < |blocks| && j == i + 1 < |blocks| && j != k ==> blocks[i].used || blocks[j].used
      ensures Live(blocks) == old(Live(blocks))
      ensures StartOfFree(blocks, old(lfree), lfree, End())
      ensures forall c :: 0 <= c < mem.Length && PayloadCell(old(Live(blocks)), c) ==> mem[c] == old(mem[c])
    {
      SplitFacts(k, 0);
      StartItself(blocks, lfree, End());
      var nmem := mem[ptr + NEXT];
      if k + 1 < |blocks| { Read(k + 1); }
      if ptr != nmem && mem[nmem + USED] == 0 && nmem != memSize + HDR {
        JoinStart(blocks, k, lfree, lfree, End());
        JoinTiles(blocks, k, End());
        ghost var a := blocks;
        if lfree == nmem {
          lfree := ptr;
        }
        JoinPayload(k);
        Join(ptr, nmem, k);
        JoinPairs(a, k);
      }
    }

    method PlugBackward(ptr: nat, ghost k: nat, ghost x: nat)
      requires Linked(mem[..], blocks, End()) && k < |blocks| && blocks[k].off == ptr && !blocks[k].used
      requires forall i :: 0 <= i < |blocks| ==> Proper(blocks[i])
      requires forall i, j :: 0 <= i < |blocks| && j == i + 1 < |blocks| && j != k ==> blocks[i].used || blocks[j].used
      requires StartOfFree(blocks, x, lfree, End())
      modifies this`blocks, this`lfree, mem
      ensures Linked(mem[..], blocks, End()) && Canonical(blocks, End())
      ensures Live(blocks) == old(Live(blocks))
      ensures StartOfFree(blocks, x, lfree, End())
      ensures forall c :: 0 <= c < mem.Length && PayloadCell(old(Live(blocks)), c) ==> mem[c] == old(mem[c])
    {
      BackFacts(k);
      var pmem := mem[ptr + PREV];
      if pmem != ptr && mem[pmem + USED] == 0 {
        ghost var a := blocks;
        JoinStart(blocks, k - 1, x, lfree, End());
        JoinTiles(blocks, k - 1, End());
        if lfree == ptr {
          lfree := pmem;
        }
        JoinPayload(k - 1);
        JoinPairs(a, k - 1);
        Join(pmem, ptr, k - 1);
      }
    }

    lemma BackFacts(k: nat)
      requires Linked(mem[..], blocks, End()) && k < |blocks|
      ensures mem.Length == End() + HDR && blocks[k].off + HDR <= End()
      ensures mem[blocks[k].off + PREV] == PrevOff(blocks, k)
      ensures k == 0 ==> blocks[k].off == 0
      ensures k > 0 ==> blocks[k - 1].off < blocks[k].off && blocks[k - 1].end == blocks[k].off
      ensures k > 0 ==> mem[blocks[k - 1].off + USED] == if blocks[k - 1].used then 1 else 0
    {
      Read(k);
      Ordered(blocks, 0, End());
      if k > 0 { Read(k - 1); }
    }

    /** Cells a join at `k` writes are not payload cells. */
    lemma JoinPayload(k: nat)
      requires Linked(mem[..], blocks, End()) && k + 1 < |blocks|
      ensures forall c :: HeaderCell(blocks[k].off, c) || HeaderCell(blocks[k + 1].end, c) ==>
        !PayloadCell(Live(blocks), c)
    {
      Ordered(blocks, 0, End());
      forall c | HeaderCell(blocks[k].off, c) || HeaderCell(blocks[k + 1].end, c)
        ensures !PayloadCell(Live(blocks), c)
      {
        if HeaderCell(blocks[k].off, c) {
          HeaderNotPayload(mem[..], blocks, End(), k, c);
        } else {
          HeaderNotPayload(mem[..], blocks, End(), k + 2, c);
        }
      }
    }

    /** rt_system_heap_init over an aligned range of `size` bytes that passed its range check: room for two headers. */
    constructor (size: nat)
      requires size % 4 == 0 && size >= 2 * HDR
      ensures Valid() && memSize == size - 2 * HDR && Abs() == InitState(End()) && fresh(mem)
    {
      mem := new int[size];
      memSize := size - 2 * HDR;
      usedMem, maxMem, lfree := 0, 0, 0;
      blocks := [Block(0, size - HDR, false)];
      new;
      WriteHeader(0, 0, memSize + HDR, 0);
      var heapEnd := mem[NEXT];
      WriteHeader(heapEnd, 1, memSize + HDR, memSize + HDR);
      InitInv(size - HDR);
      assert HeaderOf(mem[..], blocks, 0, End());
    }

    /** The part of rt_malloc that turns the free block found at `ptr` into a used one. */
    method Take(ptr: nat, size: nat, ghost k: nat)
      requires Linked(mem[..], blocks, End()) && k < |blocks| && blocks[k].off == ptr && !blocks[k].used
      requires MIN_SIZE <= size <= Payload(blocks[k])
      modifies this, mem
      ensures Linked(mem[..], blocks, End())
      ensures blocks == Splice(old(blocks), k, k + 1, Carve(old(blocks[k]), size))
      ensures var c := Carve(old(blocks[k]), size); usedMem == old(usedMem) + (c[0].end - c[0].off)
      ensures maxMem == if old(maxMem) < usedMem then usedMem else old(maxMem)
      ensures if ptr == old(lfree) then FirstFreeFrom(blocks, ptr, End(), lfree) else lfree == old(lfree)
      ensures forall c :: 0 <= c < mem.Length && PayloadCell(old(Live(blocks)), c) ==> mem[c] == old(mem[c])
    {
      Read(k);
      ghost var b, a := blocks[k], blocks;
      SplitPayload(k, size);
      HeaderIsNotPayload(k);
      if mem[ptr + NEXT] - (ptr + HDR) >= size + HDR + MIN_SIZE {
        var ptr2 := ptr + HDR + size;
        Split(ptr, ptr2, k);
        Account(size + HDR);
      } else {
        Account(mem[ptr + NEXT] - ptr);
        assert a == Splice(a, k, k + 1, [b]);
      }
      Mark(ptr, true, k);
      assert blocks == Splice(a, k, k + 1, Carve(b, size));
      if ptr == lfree {
        AdvanceLfree(k);
      }
    }

    /** The statistics of rt_malloc. */
    method Account(n: int)
      modifies `usedMem, `maxMem
      ensures usedMem == old(usedMem) + n && maxMem == if old(maxMem) < usedMem then usedMem else old(maxMem)
    {
      usedMem := usedMem + n;
      if maxMem < usedMem {
        maxMem := usedMem;
      }
    }

    lemma HeaderIsNotPayload(k: nat)
      requires Linked(mem[..], blocks, End()) && k < |blocks|
      ensures forall c :: HeaderCell(blocks[k].off, c) ==> !PayloadCell(Live(blocks), c)
    {
      forall c | HeaderCell(blocks[k].off, c) ensures !PayloadCell(Live(blocks), c) {
        HeaderNotPayload(mem[..], blocks, End(), k, c);
      }
    }

    /** Splitting a free block writes no payload cell of a live one. */
    lemma SplitPayload(k: nat, size: nat)
      requires Linked(mem[..], blocks, End()) && k < |blocks| && !blocks[k].used
      ensures size + HDR + MIN_SIZE <= Payload(blocks[k]) ==>
        forall c :: PayloadCell(Live(blocks), c) ==> OutsideSplit(blocks[k], blocks[k].off + HDR + size, c)
    {
      Ordered(blocks, 0, End());
      LiveIn(blocks);
      NoPayloadAt(k);
      NoPayloadAt(k + 1);
    }

    lemma NoPayloadAt(k: nat)
      requires Linked(mem[..], blocks, End()) && k <= |blocks|
      ensures forall c :: PayloadCell(Live(blocks), c) ==> !HeaderCell(OffAt(blocks, k, End()), c)
    {
      forall c | HeaderCell(OffAt(blocks, k, End()), c) ensures !PayloadCell(Live(blocks), c) {
        HeaderNotPayload(mem[..], blocks, End(), k, c);
      }
    }

    /** The search loop of rt_malloc: the first block from lfree on that is large enough. */
    method FindFit(size: nat) returns (found: bool, ptr: nat, ghost k: nat)
      requires Valid() && MIN_SIZE <= size <= memSize
      ensures found ==> FirstFit(Abs(), size, End(), k) && blocks[k].off == ptr
      ensures !found ==> NoneFits(Abs(), size, End())
    {
      ptr := lfree;
      k := IndexOf(blocks, lfree, End());
      ghost var k0 := k;
      while ptr < memSize - size
        invariant k0 <= k <= |blocks| && ptr == OffAt(blocks, k, End())
        invariant forall j :: k0 <= j < k ==> !Fits(blocks[j], size, End())
        decreases |blocks| - k
      {
        Read(k);
        if mem[ptr + USED] == 0 && mem[ptr + NEXT] - (ptr + HDR) >= size {
          LfreeIndex(blocks, k0, lfree, End());
          return true, ptr, k;
        }
        ptr := mem[ptr + NEXT];
        NextOff(blocks, k, End());
        k := k + 1;
      }
      TooFar(blocks, k, size, End());
      LfreeIndex(blocks, k0, lfree, End());
      found := false;
    }

    /** rt_malloc, where its search comes to an end. */
    method Malloc(request: nat) returns (p: Ptr)
      requires Valid() && Ends(request, End())
      modifies this, mem
      ensures Valid()
      ensures MallocStep(old(Abs()), End(), request, p, Abs())
      ensures forall c :: 0 <= c < mem.Length && PayloadCell(old(Live(blocks)), c) ==> mem[c] == old(mem[c])
      ensures p == Null ==> mem[..] == old(mem[..])
    {
      if request == 0 {
        return Null;
      }
      var size := Align(request);
      if size > memSize {
        return Null;
      }
      if size < MIN_SIZE {
        size := MIN_SIZE;
      }
      NeedAligned(request);
      ghost var s := Abs();
      var found, ptr, k := FindFit(size);
      if !found {
        return Null;
      }
      Take(ptr, size, k);
      p := At(ptr + HDR);
      assert MallocAt(s, End(), request, k, p, Abs());
      MallocKeepsInv(s, End(), request, p, Abs());
    }

    /** The block whose payload is at `p`. */
    ghost predicate IsLive(p: Ptr)
      reads this
    {
      exists b :: LiveAt(Abs(), p, b)
    }

    ghost function LiveIndex(p: Ptr): (k: nat)
      reads this
      requires IsLive(p)
      ensures k < |blocks| && blocks[k].used && p == At(blocks[k].off + HDR)
    {
      LiveIn(blocks);
      var b :| LiveAt(Abs(), p, b);
      var k :| 0 <= k < |blocks| && blocks[k] == b;
      k
    }

    /** rt_free once the block is found: mark it, lower lfree, account, coalesce. */
    method Release(ptr: nat, ghost k: nat)
      requires Valid() && k < |blocks| && blocks[k].off == ptr && blocks[k].used
      modifies this, mem
      ensures Linked(mem[..], blocks, End())
      ensures FreeBlock(old(Abs()), End(), old(blocks[k]), Abs())
      ensures forall c :: 0 <= c < mem.Length && PayloadCell(Live(blocks), c) ==> mem[c] == old(mem[c])
    {
      FreeFacts(blocks, k, lfree, End());
      HeaderIsNotPayload(k);
      Mark(ptr, false, k);
      Read(k);
      if ptr < lfree {
        lfree := ptr;
      }
      usedMem := usedMem - (mem[ptr + NEXT] - ptr);
      PlugHoles(ptr, k);
    }

    /** rt_free; RT_ASSERT demands a used block of this heap or NULL. */
    method Free(rmem: Ptr)
      requires Valid() && (rmem == Null || IsLive(rmem))
      modifies this, mem
      ensures Valid()
      ensures FreeStep(old(Abs()), End(), rmem, Abs())
      ensures forall c :: 0 <= c < mem.Length && PayloadCell(Live(blocks), c) ==> mem[c] == old(mem[c])
    {
      if rmem == Null {
        return;
      }
      ghost var s, k := Abs(), LiveIndex(rmem);
      ghost var b := blocks[k];
      LiveIn(blocks);
      Release(rmem.addr - HDR, k);
      assert LiveAt(s, rmem, b);
      FreeKeepsInv(s, End(), rmem, Abs());
    }

    /** rt_realloc cutting the tail off block `k`. */
    method Shrink(ptr: nat, newsize: nat, ghost k: nat)
      requires Valid() && k < |blocks| && blocks[k].off == ptr && blocks[k].used
      requires newsize % 4 == 0 && 0 < newsize && Shrinks(blocks[k], newsize)
      modifies this, mem
      ensures Linked(mem[..], blocks, End())
      ensures ShrinkBlock(old(Abs()), End(), old(blocks[k]), newsize, Abs())
      ensures forall c :: 0 <= c < mem.Length && PayloadCell(Live(blocks), c) ==> mem[c] == old(mem[c])
    {
      Read(k);
      ShrinkFacts(blocks, k, newsize, lfree, End());
      ShrinkPairs(blocks, k, newsize, End());
      ghost var b := blocks[k];
      var size := mem[ptr + NEXT] - ptr - HDR;
      var ptr2 := ptr + HDR + newsize;
      ghost var live := Live(blocks) - {b} + {Block(ptr, ptr2, true)};
      CutBlock(ptr, ptr2, k, live);
      usedMem := usedMem - (size - newsize);
      PlugHoles(ptr2, k + 1);
    }

    /** The split of a live block for rt_realloc writes no payload cell of what stays live. */
    method CutBlock(ptr: nat, ptr2: nat, ghost k: nat, ghost live: set<Block>)
      requires Valid() && k < |blocks| && blocks[k].off == ptr && blocks[k].used
      requires ptr + HDR < ptr2 && ptr2 + HDR < blocks[k].end
      requires live == Live(blocks) - {blocks[k]} + {Block(ptr, ptr2, true)}
      modifies mem, this`blocks
      ensures blocks == Splice(old(blocks), k, k + 1, Halves(old(blocks[k]), ptr2))
      ensures Linked(mem[..], blocks, End())
      ensures forall c :: 0 <= c < mem.Length && PayloadCell(live, c) ==> mem[c] == old(mem[c])
    {
      ShrinkPayload(k, Block(ptr, ptr2, true), live);
      Split(ptr, ptr2, k);
    }

    /** Splitting a live block writes no payload cell of what stays live. */
    lemma ShrinkPayload(k: nat, kept: Block, live: set<Block>)
      requires Valid() && k < |blocks| && blocks[k].used && kept.off == blocks[k].off < kept.end <= blocks[k].end
      requires live == Live(blocks) - {blocks[k]} + {kept}
      ensures forall c :: PayloadCell(live, c) ==> OutsideSplit(blocks[k], kept.end, c)
    {
      Ordered(blocks, 0, End());
      LiveIn(blocks);
      forall c | PayloadCell(live, c) ensures OutsideSplit(blocks[k], kept.end, c) {
        var b :| b in live && b.off + HDR <= c < b.end;
        if b != kept {
          DistinctBlocksDisjoint(blocks, 0, End(), b, blocks[k]);
        }
      }
    }

    /** rt_memcpy within the heap, between disjoint ranges. */
    method Copy(dst: nat, src: nat, n: nat)
      requires dst + n <= mem.Length && src + n <= mem.Length && (dst + n <= src || src + n <= dst)
      modifies mem
      ensures forall c :: 0 <= c < mem.Length && !(dst <= c < dst + n) ==> mem[c] == old(mem[c])
      ensures forall c :: dst <= c < dst + n ==> mem[c] == old(mem[src + (c - dst)])
    {
      for i := 0 to n
        invariant forall c :: 0 <= c < mem.Length && !(dst <= c < dst + i) ==> mem[c] == old(mem[c])
        invariant forall c :: dst <= c < dst + i ==> mem[c] == old(mem[src + (c - dst)])
      {
        mem[dst + i] := mem[src + i];
      }
    }

    /** Carry `n` cells from live block `b` to live block `nb`, then free `b`. */
    method Transfer(rmem: Ptr, nmem: Ptr, n: nat, ghost b: Block, ghost nb: Block)
      requires Valid() && LiveAt(Abs(), rmem, b) && LiveAt(Abs(), nmem, nb) && b != nb
      requires n <= Payload(b) && n <= Payload(nb)
      modifies this, mem
      ensures Valid()
      ensures FreeStep(old(Abs()), End(), rmem, Abs())
      ensures forall c :: 0 <= c < mem.Length && PayloadCell(Live(blocks), c) && !(nb.off <= c < nb.end) ==>
        mem[c] == old(mem[c])
      ensures SameBytes(mem[..], nmem.addr, old(mem[..]), rmem.addr, n)
    {
      BothInside(b, nb);
      CopyLive(rmem, nmem, n, b, nb);
      ghost var copied := mem[..];
      Free(rmem);
      SurvivesFree(old(Abs()), End(), rmem, b, nb, Abs());
      StillThere(copied, mem[..], nb, Live(blocks), n);
    }

    /** Copying from one live block to another. */
    method CopyLive(rmem: Ptr, nmem: Ptr, n: nat, ghost b: Block, ghost nb: Block)
      requires Valid() && LiveAt(Abs(), rmem, b) && LiveAt(Abs(), nmem, nb) && b != nb
      requires n <= Payload(b) && n <= Payload(nb)
      modifies mem
      ensures Valid() && SameBytes(mem[..], nmem.addr, old(mem[..]), rmem.addr, n)
      ensures forall c :: 0 <= c < mem.Length && !(nb.off <= c < nb.end) ==> mem[c] == old(mem[c])
    {
      ghost var m := mem[..];
      BothInside(b, nb);
      Copy(nmem.addr, rmem.addr, n);
      ghost var copied := mem[..];
      assert forall c :: nb.off + HDR <= c < nb.off + HDR + n ==> PayloadCell(Live(blocks), c);
      ClientWriteKeepsLinks(m, copied, blocks, End());
      assert copied[nmem.addr..nmem.addr + n] == m[rmem.addr..rmem.addr + n];
    }

    lemma BothInside(b: Block, nb: Block)
      requires Valid() && b in Live(blocks) && nb in Live(blocks) && b != nb
      ensures b.end <= mem.Length && nb.end <= mem.Length && (b.end <= nb.off || nb.end <= b.off)
    {
      LiveIn(blocks);
      Ordered(blocks, 0, End());
      DistinctBlocksDisjoint(blocks, 0, End(), b, nb);
    }

    /** The end of rt_realloc: a new block, the contents copied, the old block freed. */
    method Move(rmem: Ptr, size: nat, newsize: nat, ghost b: Block) returns (nmem: Ptr)
      requires Valid() && Ends(newsize, End()) && LiveAt(Abs(), rmem, b) && size == Payload(b)
      modifies this, mem
      ensures Valid()
      ensures SmallHeapSpec.Move(old(Abs()), End(), rmem, newsize, nmem, Abs())
      ensures forall c :: 0 <= c < mem.Length && PayloadCell(old(Live(blocks)) * Live(blocks), c) ==>
        mem[c] == old(mem[c])
      ensures nmem == Null ==> mem[..] == old(mem[..])
      ensures nmem.At? ==> SameBytes(mem[..], nmem.addr, old(mem[..]), rmem.addr, Min(size, newsize))
    {
      ghost var s, m0 := Abs(), mem[..];
      LiveInside(b);
      nmem := Malloc(newsize);
      if nmem != Null {
        ghost var nb := MallocFresh(s, End(), newsize, nmem.addr, Abs());
        ghost var mid := mem[..];
        ApartFromNew(s, nb);
        Transfer(rmem, nmem, if size < newsize then size else newsize, b, nb);
        SameSource(mem[..], mid, m0, nmem.addr, b, Min(size, newsize), Live(s.blocks));
      }
    }

    lemma LiveInside(b: Block)
      requires Valid() && b in Live(blocks)
      ensures b in blocks && b.used && b.off + HDR < b.end <= End() && mem.Length == End() + HDR
    {
      LiveIn(blocks);
      var k :| 0 <= k < |blocks| && blocks[k] == b;
      Read(k);
    }

    /** The body of rt_realloc. */
    method Resize(rmem: Ptr, request: nat) returns (r: Ptr)
      requires Valid() && Ends(request, End())
      requires rmem == Null || IsLive(rmem) || (Align(request) != 0 && !(0 <= rmem.addr < End()))
      modifies this, mem
      ensures Valid()
      ensures ReallocStep(old(Abs()), End(), rmem, request, r, Abs())
      ensures forall c :: 0 <= c < mem.Length && PayloadCell(old(Live(blocks)) * Live(blocks), c) ==>
        mem[c] == old(mem[c])
      ensures r == Null && Align(request) != 0 ==> mem[..] == old(mem[..])
      ensures r.At? ==> forall b :: LiveAt(old(Abs()), rmem, b) ==>
        SameBytes(mem[..], r.addr, old(mem[..]), rmem.addr, Min(Payload(b), Align(request)))
    {
      var newsize := Align(request);
      if newsize > memSize {
        return Null;
      } else if newsize == 0 {
        Free(rmem);
        return Null;
      }
      if rmem == Null {
        r := Malloc(newsize);
        return;
      }
      if rmem.addr < 0 || rmem.addr >= memSize + HDR {
        NotLive(rmem);
        return rmem;
      }
      ghost var s, k := Abs(), LiveIndex(rmem);
      ghost var b := blocks[k];
      LiveIn(blocks);
      Read(k);
      assert LiveAt(s, rmem, b);
      forall x | LiveAt(s, rmem, x) ensures x == b { SameAddress(s, End(), x, b); }
      var ptr := rmem.addr - HDR;
      var size := mem[ptr + NEXT] - ptr - HDR;
      if size == newsize {
        return rmem;
      }
      if newsize + HDR + MIN_SIZE < size {
        ShrinkInPlace(rmem, newsize, k);
        assert ReallocLive(s, End(), rmem, b, newsize, rmem, Abs());
        return rmem;
      }
      r := Move(rmem, size, newsize, b);
      assert ReallocLive(s, End(), rmem, b, newsize, r, Abs());
    }

    /** rt_realloc. A block that is neither kept nor cut in place is moved; contents travel along. The block returned
        has room for the request. */
    method Realloc(rmem: Ptr, request: nat) returns (r: Ptr)
      requires Valid() && Ends(request, End())
      requires rmem == Null || IsLive(rmem) || (Align(request) != 0 && !(0 <= rmem.addr < End()))
      modifies this, mem
      ensures Valid()
      ensures ReallocStep(old(Abs()), End(), rmem, request, r, Abs())
      ensures forall c :: 0 <= c < mem.Length && PayloadCell(old(Live(blocks)) * Live(blocks), c) ==>
        mem[c] == old(mem[c])
      ensures r == Null && Align(request) != 0 ==> mem[..] == old(mem[..])
      ensures r.At? ==> forall b :: LiveAt(old(Abs()), rmem, b) ==>
        SameBytes(mem[..], r.addr, old(mem[..]), rmem.addr, Min(Payload(b), Align(request)))
      ensures r.At? && request > 0 ==>
        forall b :: LiveAt(old(Abs()), rmem, b) ==> Exchanged(old(Abs()), b, request, r, Abs())
      ensures r.At? && request > 0 && rmem == Null ==> Added(old(Abs()), request, r, Abs())
    {
      ghost var s := Abs();
      r := Resize(rmem, request);
      if r != Null && request > 0 { Returned(s, End(), rmem, request, r, Abs()); }
    }

    lemma NotLive(p: Ptr)
      requires Valid() && p.At? && !(0 <= p.addr < End())
      ensures !IsLive(p)
    {
      forall b | LiveAt(Abs(), p, b) ensures false { LiveInside(b); }
    }

    method ShrinkInPlace(rmem: Ptr, newsize: nat, ghost k: nat)
      requires Valid() && k < |blocks| && blocks[k].used && rmem == At(blocks[k].off + HDR)
      requires newsize % 4 == 0 && 0 < newsize && Shrinks(blocks[k], newsize)
      modifies this, mem
      ensures Valid()
      ensures ShrinkBlock(old(Abs()), End(), old(blocks[k]), newsize, Abs())
      ensures forall c :: 0 <= c < mem.Length && PayloadCell(Live(blocks), c) ==> mem[c] == old(mem[c])
      ensures SameBytes(mem[..], rmem.addr, old(mem[..]), rmem.addr, newsize)
    {
      ghost var s, b, m := Abs(), blocks[k], mem[..];
      LiveIn(blocks);
      LiveInside(b);
      Shrink(rmem.addr - HDR, newsize, k);
      ShrinkKeepsInv(s, End(), b, newsize, Abs());
      StillThere(m, mem[..], Block(b.off, b.off + HDR + newsize, true), Live(blocks), newsize);
    }
  }
}
