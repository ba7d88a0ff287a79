/** What rt_malloc, rt_free and rt_realloc of the small-memory heap promise, as steps
    between abstract heap states, and what follows for every run of such steps. */
module SmallHeapSpec {
  import opened HeapBlocks

  const ALIGN: nat := 4     // RT_ALIGN_SIZE
  const HDR: nat := 12      // SIZEOF_STRUCT_MEM
  const MIN_SIZE: nat := 12 // MIN_SIZE_ALIGNED

  /** RT_ALIGN(n, RT_ALIGN_SIZE) */
  function Align(n: nat): nat {
    (n + 3) / 4 * 4
  }

  /** Payload size rt_malloc looks for. */
  function Need(size: nat): nat {
    if Align(size) < MIN_SIZE then MIN_SIZE else Align(size)
  }

  /** A pointer into the heap, as an offset from heap_ptr. */
  datatype Ptr = Null | At(addr: int)

  /** `end` is the offset of heap_end; mem_size_aligned is `end - HDR`. */
  datatype State = State(blocks: seq<Block>, lfree: nat, used: int, max: int)

  function Payload(b: Block): int {
    b.end - b.off - HDR
  }

  /** Only the one block of a heap with no room at all has no payload. */
  ghost predicate Proper(b: Block) {
    b.off % 4 == 0 && b.end % 4 == 0 && (Payload(b) >= ALIGN || (!b.used && b.off == 0 && Payload(b) == 0))
  }

  /** Block lists the heap can hold: aligned, tiling the heap up to heap_end, coalesced. */
  ghost predicate Canonical(a: seq<Block>, end: nat) {
    && Tiles(a, 0, end)
    && NoTwoFree(a)
    && (forall i :: 0 <= i < |a| ==> Proper(a[i]))
  }

  ghost predicate IsFreeAt(a: seq<Block>, x: nat) {
    exists i :: 0 <= i < |a| && a[i].off == x && !a[i].used
  }

  ghost predicate Inv(s: State, end: nat) {
    && Canonical(s.blocks, end)
    && (s.lfree == end || IsFreeAt(s.blocks, s.lfree))
    && s.used == UsedSum(s.blocks) <= s.max
  }

  /** lfree is the lowest free block, as its comment in the source says. */
  ghost predicate LowestFree(s: State) {
    forall i :: 0 <= i < |s.blocks| && !s.blocks[i].used ==> s.lfree <= s.blocks[i].off
  }

  function InitState(end: nat): State {
    State([Block(0, end, false)], 0, 0, 0)
  }

  // ---------- malloc ----------

  /** A free block rt_malloc may take: roomy, but not an exactly fitting block before heap_end. */
  predicate Fits(b: Block, need: nat, end: nat) {
    !b.used && Payload(b) >= need && !(b.end == end && Payload(b) == need)
  }

  ghost predicate FirstFit(s: State, need: nat, end: nat, i: int) {
    && 0 <= i < |s.blocks| && Fits(s.blocks[i], need, end) && s.lfree <= s.blocks[i].off
    && (forall j :: 0 <= j < i && s.lfree <= s.blocks[j].off ==> !Fits(s.blocks[j], need, end))
  }

  ghost predicate NoneFits(s: State, need: nat, end: nat) {
    forall j :: 0 <= j < |s.blocks| && s.lfree <= s.blocks[j].off ==> !Fits(s.blocks[j], need, end)
  }

  /** The blocks a taken free block turns into: a large one leaves a free remainder. */
  function Carve(b: Block, need: nat): seq<Block> {
    if Payload(b) >= need + HDR + MIN_SIZE
    then [Block(b.off, b.off + HDR + need, true), Block(b.off + HDR + need, b.end, false)]
    else [b.(used := true)]
  }

  /** `x` is the first free block at or behind `from`, or `end`. */
  ghost predicate FirstFreeFrom(a: seq<Block>, from: nat, end: nat, x: nat) {
    && from <= x
    && (x == end || IsFreeAt(a, x))
    && (forall i :: 0 <= i < |a| && from <= a[i].off < x ==> a[i].used)
  }

  predicate Refused(size: nat, end: nat) {
    size == 0 || Align(size) + HDR > end
  }

  /** The search loop of rt_malloc comes to an end: SmallHeapTheorems.SearchEndsIff. */
  predicate Ends(size: nat, end: nat) {
    Refused(size, end) || Need(size) + HDR <= end
  }

  ghost predicate MallocAt(s: State, end: nat, size: nat, i: int, p: Ptr, s': State) {
    && !Refused(size, end) && FirstFit(s, Need(size), end, i)
    && p == At(s.blocks[i].off + HDR)
    && var c := Carve(s.blocks[i], Need(size));
       && s'.blocks == Splice(s.blocks, i, i + 1, c)
       && (if s.blocks[i].off == s.lfree then FirstFreeFrom(s'.blocks, s.lfree, end, s'.lfree)
           else s'.lfree == s.lfree)
       && s'.used == s.used + (c[0].end - c[0].off)
       && s'.max == (if s.max < s'.used then s'.used else s.max)
  }

  ghost predicate MallocStep(s: State, end: nat, size: nat, p: Ptr, s': State) {
    if p == Null then s' == s && (Refused(size, end) || NoneFits(s, Need(size), end))
    else exists i :: MallocAt(s, end, size, i, p, s')
  }

  // ---------- free ----------

  /** `y` is the start of the free block of `a` that holds offset `x`, or `end` for `end`. */
  ghost predicate StartOfFree(a: seq<Block>, x: nat, y: nat, end: nat) {
    if x == end then y == end
    else exists i :: 0 <= i < |a| && !a[i].used && a[i].off == y <= x < a[i].end
  }

  ghost predicate LiveAt(s: State, p: Ptr, b: Block) {
    b in Live(s.blocks) && p == At(b.off + HDR)
  }

  function Min(x: int, y: int): int {
    if x < y then x else y
  }

  /** Freeing takes one live block away and coalesces; nothing else about the blocks is left open. */
  ghost predicate FreeBlock(s: State, end: nat, b: Block, s': State) {
    && Canonical(s'.blocks, end) && Live(s'.blocks) == Live(s.blocks) - {b}
    && StartOfFree(s'.blocks, Min(b.off, s.lfree), s'.lfree, end)
    && s'.used == s.used - (b.end - b.off) && s'.max == s.max
  }

  ghost predicate FreeStep(s: State, end: nat, p: Ptr, s': State) {
    if p == Null then s' == s
    else exists b :: LiveAt(s, p, b) && FreeBlock(s, end, b, s')
  }

  // ---------- realloc ----------

  /** Condition under which rt_realloc cuts the tail off a block in place. */
  predicate Shrinks(b: Block, n: nat) {
    n + HDR + MIN_SIZE < Payload(b)
  }

  ghost predicate ShrinkBlock(s: State, end: nat, b: Block, n: nat, s': State) {
    && Canonical(s'.blocks, end)
    && Live(s'.blocks) == Live(s.blocks) - {b} + {Block(b.off, b.off + HDR + n, true)}
    && StartOfFree(s'.blocks, s.lfree, s'.lfree, end)
    && s'.used == s.used - (Payload(b) - n) && s'.max == s.max
  }

  ghost predicate Move(s: State, end: nat, p: Ptr, n: nat, r: Ptr, s': State) {
    if r == Null then MallocStep(s, end, n, Null, s')
    else exists m :: MallocStep(s, end, n, r, m) && FreeStep(m, end, p, s')
  }

  ghost predicate ReallocStep(s: State, end: nat, p: Ptr, size: nat, r: Ptr, s': State) {
    var n := Align(size);
    if n + HDR > end then s' == s && r == Null
    else if n == 0 then FreeStep(s, end, p, s') && r == Null
    else if p == Null then MallocStep(s, end, n, r, s')
    else if p.addr < 0 || p.addr >= end then s' == s && r == p
    else exists b :: LiveAt(s, p, b) && ReallocLive(s, end, p, b, n, r, s')
  }

  ghost predicate ReallocLive(s: State, end: nat, p: Ptr, b: Block, n: nat, r: Ptr, s': State) {
    if Payload(b) == n then s' == s && r == p
    else if Shrinks(b, n) then ShrinkBlock(s, end, b, n, s') && r == p
    else Move(s, end, p, n, r, s')
  }

  // ---------- every step keeps the invariant ----------

  lemma TwoBlocks(x: Block, y: Block)
    ensures Live([x, y]) == (if x.used then {x} else {}) + (if y.used then {y} else {})
    ensures UsedSum([x, y]) == (if x.used then x.end - x.off else 0) + (if y.used then y.end - y.off else 0)
    ensures forall lo, hi: nat :: Tiles([x, y], lo, hi) <==> lo == x.off < x.end == y.off < y.end == hi
  {
    assert [x, y][1..] == [y] && [y][1..] == [];
    assert Live([y]) == if y.used then {y} else {};
    assert UsedSum([y]) == if y.used then y.end - y.off else 0;
    forall lo: nat, hi: nat ensures Tiles([x, y], lo, hi) <==> lo == x.off < x.end == y.off < y.end == hi {
      assert Tiles([y], x.end, hi) <==> x.end == y.off < y.end == hi;
    }
  }

  lemma CarveTiles(b: Block, need: nat)
    requires Proper(b) && need % 4 == 0 && ALIGN <= need <= Payload(b)
    ensures var c := Carve(b, need);
      && Tiles(c, b.off, b.end) && (forall i :: 0 <= i < |c| ==> Proper(c[i]))
      && c[0].used && Payload(c[0]) >= need && c[0].off == b.off
      && Live(c) == {c[0]} && UsedSum(c) == c[0].end - c[0].off
  {
    var c := Carve(b, need);
    if |c| == 1 { assert c[1..] == []; } else { TwoBlocks(c[0], c[1]); }
  }

  lemma NeedAligned(size: nat)
    ensures Need(size) % 4 == 0 && Need(size) >= size && Need(size) >= MIN_SIZE && Align(size) % 4 == 0
    ensures size <= Align(size) < size + 4
  {
  }

  lemma OneBlock(a: seq<Block>, i: nat)
    requires i < |a|
    ensures a[i..i + 1] == [a[i]]
    ensures Live(a[i..i + 1]) == if a[i].used then {a[i]} else {}
    ensures UsedSum(a[i..i + 1]) == if a[i].used then a[i].end - a[i].off else 0
  {
    assert a[i..i + 1] == [a[i]];
    assert [a[i]][1..] == [];
  }

  /** The new block list of a successful malloc: one more live block, nothing else live changes. */
  lemma CarveLive(s: State, end: nat, need: nat, i: nat)
    requires Inv(s, end) && i < |s.blocks| && !s.blocks[i].used
    requires need % 4 == 0 && ALIGN <= need <= Payload(s.blocks[i])
    ensures var c := Carve(s.blocks[i], need); var a := Splice(s.blocks, i, i + 1, c);
      && Canonical(a, end) && c[0] !in Live(s.blocks)
      && Live(a) == Live(s.blocks) + {c[0]}
      && UsedSum(a) == s.used + (c[0].end - c[0].off)
  {
    var b := s.blocks[i];
    var c := Carve(b, need);
    CarveTiles(b, need);
    OneBlock(s.blocks, i);
    Ordered(s.blocks, 0, end);
    SpliceTiles(s.blocks, i, i + 1, c, 0, end);
    SpliceLive(s.blocks, i, i + 1, c, 0, end);
    LiveIn(s.blocks);
    CarveCoalesced(s, end, need, i);
  }

  lemma CarveCoalesced(s: State, end: nat, need: nat, i: nat)
    requires Inv(s, end) && i < |s.blocks| && !s.blocks[i].used
    requires need % 4 == 0 && ALIGN <= need <= Payload(s.blocks[i])
    ensures var a := Splice(s.blocks, i, i + 1, Carve(s.blocks[i], need));
      NoTwoFree(a) && forall k :: 0 <= k < |a| ==> Proper(a[k])
  {
    CarveTiles(s.blocks[i], need);
    OneForUsed(s.blocks, i, Carve(s.blocks[i], need));
  }

  /** Blocks `c`, the first of them used, in place of one free block. */
  lemma OneForUsed(a: seq<Block>, i: nat, c: seq<Block>)
    requires i < |a| && !a[i].used && 1 <= |c| <= 2 && c[0].used && NoTwoFree(a)
    requires (forall k :: 0 <= k < |a| ==> Proper(a[k])) && forall k :: 0 <= k < |c| ==> Proper(c[k])
    ensures var r := Splice(a, i, i + 1, c); NoTwoFree(r) && forall k :: 0 <= k < |r| ==> Proper(r[k])
  {
    var r := Splice(a, i, i + 1, c);
    assert forall k :: 0 <= k < |r| ==>
      r[k] == if k < i then a[k] else if k < i + |c| then c[k - i] else a[k - |c| + 1];
    forall k, l | 0 <= k < |r| && l == k + 1 < |r| ensures r[k].used || r[l].used {
      if k + 1 < i { assert a[k].used || a[k + 1].used; }
      if k >= i + |c| { assert a[k - |c| + 1].used || a[k - |c| + 2].used; }
    }
  }

  lemma MallocKeepsInv(s: State, end: nat, size: nat, p: Ptr, s': State)
    requires Inv(s, end) && MallocStep(s, end, size, p, s')
    ensures Inv(s', end)
  {
    if p != Null {
      var i :| MallocAt(s, end, size, i, p, s');
      NeedAligned(size);
      CarveLive(s, end, Need(size), i);
      if s.blocks[i].off != s.lfree && s.lfree != end {
        var k :| 0 <= k < |s.blocks| && s.blocks[k].off == s.lfree && !s.blocks[k].used;
        var c := Carve(s.blocks[i], Need(size));
        var k' := if k < i then k else k + |c| - 1;
        assert s'.blocks[k'] == s.blocks[k];
      }
    }
  }

  /** A tiling with one live block marked free: same range, that block no longer live. */
  lemma DropLive(s: State, end: nat, b: Block)
    requires Inv(s, end) && b in Live(s.blocks)
    ensures exists a ::
      Tiles(a, 0, end) && Live(a) == Live(s.blocks) - {b} && UsedSum(a) == s.used - (b.end - b.off)
  {
    LiveIn(s.blocks);
    var i :| 0 <= i < |s.blocks| && s.blocks[i] == b;
    DropAt(s.blocks, i, end);
  }

  lemma DropAt(a: seq<Block>, i: nat, end: nat)
    requires Tiles(a, 0, end) && i < |a| && a[i].used
    ensures var r := Splice(a, i, i + 1, [a[i].(used := false)]);
      Tiles(r, 0, end) && Live(r) == Live(a) - {a[i]} && UsedSum(r) == UsedSum(a) - (a[i].end - a[i].off)
  {
    var mid := [a[i].(used := false)];
    OneBlock(a, i);
    assert mid[1..] == [];
    Ordered(a, 0, end);
    SpliceTiles(a, i, i + 1, mid, 0, end);
    SpliceLive(a, i, i + 1, mid, 0, end);
  }

  lemma FreeKeepsInv(s: State, end: nat, p: Ptr, s': State)
    requires Inv(s, end) && FreeStep(s, end, p, s')
    ensures Inv(s', end)
  {
    if p != Null {
      var b :| LiveAt(s, p, b) && FreeBlock(s, end, b, s');
      DropLive(s, end, b);
      var a :| Tiles(a, 0, end) && Live(a) == Live(s.blocks) - {b} && UsedSum(a) == s.used - (b.end - b.off);
      SumByLive(a, s'.blocks, 0, 0, end);
      LiveIn(s.blocks);
      Ordered(s.blocks, 0, end);
    }
  }

  /** A tiling with the tail of one live block cut off as a free block. */
  lemma CutLive(s: State, end: nat, b: Block, n: nat)
    requires Inv(s, end) && b in Live(s.blocks) && Shrinks(b, n)
    ensures exists a ::
      Tiles(a, 0, end) && Live(a) == Live(s.blocks) - {b} + {Block(b.off, b.off + HDR + n, true)}
      && UsedSum(a) == s.used - (Payload(b) - n)
  {
    LiveIn(s.blocks);
    var i :| 0 <= i < |s.blocks| && s.blocks[i] == b;
    CutAt(s.blocks, i, n, end);
  }

  lemma CutAt(a: seq<Block>, i: nat, n: nat, end: nat)
    requires Tiles(a, 0, end) && i < |a| && a[i].used && Shrinks(a[i], n)
    ensures var kept := Block(a[i].off, a[i].off + HDR + n, true);
      var r := Splice(a, i, i + 1, [kept, Block(kept.end, a[i].end, false)]);
      Tiles(r, 0, end) && Live(r) == Live(a) - {a[i]} + {kept} && UsedSum(r) == UsedSum(a) - (Payload(a[i]) - n)
  {
    var kept, rest := Block(a[i].off, a[i].off + HDR + n, true), Block(a[i].off + HDR + n, a[i].end, false);
    OneBlock(a, i);
    TwoBlocks(kept, rest);
    Ordered(a, 0, end);
    SpliceTiles(a, i, i + 1, [kept, rest], 0, end);
    SpliceLive(a, i, i + 1, [kept, rest], 0, end);
  }

  lemma ShrinkKeepsInv(s: State, end: nat, b: Block, n: nat, s': State)
    requires Inv(s, end) && b in Live(s.blocks) && Shrinks(b, n) && ShrinkBlock(s, end, b, n, s')
    ensures Inv(s', end)
  {
    CutLive(s, end, b, n);
    var kept := Block(b.off, b.off + HDR + n, true);
    var a :| Tiles(a, 0, end) && Live(a) == Live(s.blocks) - {b} + {kept} && UsedSum(a) == s.used - (Payload(b) - n);
    SumByLive(a, s'.blocks, 0, 0, end);
  }

  lemma ReallocKeepsInv(s: State, end: nat, p: Ptr, size: nat, r: Ptr, s': State)
    requires Inv(s, end) && ReallocStep(s, end, p, size, r, s')
    ensures Inv(s', end)
  {
    var n := Align(size);
    if n + HDR > end {
    } else if n == 0 {
      FreeKeepsInv(s, end, p, s');
    } else if p == Null {
      MallocKeepsInv(s, end, n, r, s');
    } else if 0 <= p.addr < end {
      var b :| LiveAt(s, p, b) && ReallocLive(s, end, p, b, n, r, s');
      if Payload(b) == n {
      } else if Shrinks(b, n) {
        ShrinkKeepsInv(s, end, b, n, s');
      } else if r == Null {
        MallocKeepsInv(s, end, n, r, s');
      } else {
        var m :| MallocStep(s, end, n, r, m) && FreeStep(m, end, p, s');
        MallocKeepsInv(s, end, n, r, m);
        FreeKeepsInv(m, end, p, s');
      }
    }
  }
}
