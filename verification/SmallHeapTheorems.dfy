/** What every run of the small-memory heap guarantees: invariants, freshness of what
    rt_malloc hands out, when it may fail, and that rt_free undoes rt_malloc. */
module SmallHeapTheorems {
  import opened HeapBlocks
  import opened SmallHeapSpec

  datatype Event = MallocEv(size: nat, p: Ptr) | FreeEv(p: Ptr) | ReallocEv(p: Ptr, size: nat, r: Ptr)

  /** A call that returns. */
  ghost predicate Step(s: State, end: nat, e: Event, s': State) {
    match e
    case MallocEv(size, p) => Ends(size, end) && MallocStep(s, end, size, p, s')
    case FreeEv(p) => FreeStep(s, end, p, s')
    case ReallocEv(p, size, r) => Ends(size, end) && ReallocStep(s, end, p, size, r, s')
  }

  /** `ss` are the states a heap with heap_end at `end` passes through on the calls `es`. */
  ghost predicate Run(end: nat, es: seq<Event>, ss: seq<State>) {
    && |ss| == |es| + 1 && ss[0] == InitState(end)
    && (forall i, j :: 0 <= i < |es| && j == i + 1 ==> Step(ss[i], end, es[i], ss[j]))
  }

  /** What rt_system_heap_init accepts: mem_size_aligned, which is `end - HDR`, may be 0. */
  ghost predicate HeapEndOk(end: nat) {
    end % 4 == 0 && end >= HDR
  }

  lemma StepKeepsInv(s: State, end: nat, e: Event, s': State)
    requires Inv(s, end) && Step(s, end, e, s')
    ensures Inv(s', end)
  {
    match e
    case MallocEv(size, p) => MallocKeepsInv(s, end, size, p, s');
    case FreeEv(p) => FreeKeepsInv(s, end, p, s');
    case ReallocEv(p, size, r) => ReallocKeepsInv(s, end, p, size, r, s');
  }

  lemma InitInv(end: nat)
    requires HeapEndOk(end)
    ensures Inv(InitState(end), end) && LowestFree(InitState(end))
  {
    var a := InitState(end).blocks;
    assert a == [Block(0, end, false)] && a[1..] == [];
    assert UsedSum(a[1..]) == 0 && Tiles(a[1..], end, end);
    assert UsedSum(a) == UsedSum(a[1..]);
    assert a[0].off == 0 && !a[0].used;
  }

  /** In every state of every run the heap is tiled, coalesced and accounted for. */
  lemma {:induction false} RunInv(end: nat, es: seq<Event>, ss: seq<State>, k: nat)
    requires HeapEndOk(end) && Run(end, es, ss) && k < |ss|
    ensures Inv(ss[k], end)
  {
    if k == 0 {
      InitInv(end);
    } else {
      RunInv(end, es, ss, k - 1);
      RunStep(end, es, ss, k);
      StepKeepsInv(ss[k - 1], end, es[k - 1], ss[k]);
    }
  }

  lemma RunStep(end: nat, es: seq<Event>, ss: seq<State>, k: nat)
    requires Run(end, es, ss) && 0 < k < |ss|
    ensures Step(ss[k - 1], end, es[k - 1], ss[k])
  {
  }

  // ---------- offsets and the blocks that hold them ----------

  lemma {:induction false} Covered(a: seq<Block>, lo: nat, hi: nat, x: nat)
    requires Tiles(a, lo, hi) && lo <= x < hi
    ensures exists i :: 0 <= i < |a| && a[i].off <= x < a[i].end
  {
    if x < a[0].end {
      assert a[0].off <= x < a[0].end;
    } else {
      Covered(a[1..], a[0].end, hi, x);
      var i :| 0 <= i < |a[1..]| && a[1..][i].off <= x < a[1..][i].end;
      assert a[i + 1] == a[1..][i];
    }
  }

  /** An offset outside every live block lies in a free one. */
  lemma FreeCovered(a: seq<Block>, end: nat, x: nat)
    requires Tiles(a, 0, end) && x < end
    requires forall b :: b in Live(a) ==> !(b.off <= x < b.end)
    ensures exists i :: 0 <= i < |a| && a[i].off <= x < a[i].end && !a[i].used
  {
    Covered(a, 0, end, x);
    LiveIn(a);
  }

  /** A free block and a live block of one tiling are apart. */
  lemma FreeLiveApart(a: seq<Block>, end: nat, i: nat, b: Block)
    requires Tiles(a, 0, end) && i < |a| && !a[i].used && b in Live(a)
    ensures a[i].end <= b.off || b.end <= a[i].off
  {
    LiveIn(a);
    Ordered(a, 0, end);
  }

  // ---------- what malloc hands out ----------

  lemma CarveFresh(s: State, end: nat, need: nat, i: nat) returns (b: Block)
    requires Inv(s, end) && i < |s.blocks| && !s.blocks[i].used
    requires need % 4 == 0 && ALIGN <= need <= Payload(s.blocks[i])
    ensures b == Carve(s.blocks[i], need)[0] && b.off == s.blocks[i].off && b.off % 4 == 0
    ensures need <= Payload(b) < need + HDR + MIN_SIZE && b.end <= end
    ensures forall x :: x in Live(s.blocks) ==> b.end <= x.off || x.end <= b.off
  {
    CarveTiles(s.blocks[i], need);
    b := Carve(s.blocks[i], need)[0];
    Ordered(s.blocks, 0, end);
    forall x | x in Live(s.blocks) ensures b.end <= x.off || x.end <= b.off {
      FreeLiveApart(s.blocks, end, i, x);
    }
  }

  /** The block handed out is live afterwards, word aligned, at least as large as asked for and little larger, inside
      the heap and apart from everything live before; what was live stays live. */
  lemma MallocFresh(s: State, end: nat, size: nat, addr: int, s': State) returns (b: Block)
    requires Inv(s, end) && MallocStep(s, end, size, At(addr), s')
    ensures LiveAt(s', At(addr), b) && addr % ALIGN == 0
    ensures size <= Payload(b) < Need(size) + HDR + MIN_SIZE && HDR <= addr && addr + size <= end
    ensures b !in Live(s.blocks) && Live(s'.blocks) == Live(s.blocks) + {b}
    ensures forall x :: x in Live(s.blocks) ==> b.end <= x.off || x.end <= b.off
  {
    var i :| MallocAt(s, end, size, i, At(addr), s');
    b := FreshAt(s, end, size, i, addr, s');
  }

  lemma FreshAt(s: State, end: nat, size: nat, i: nat, addr: int, s': State) returns (b: Block)
    requires Inv(s, end) && MallocAt(s, end, size, i, At(addr), s')
    ensures LiveAt(s', At(addr), b) && addr % ALIGN == 0
    ensures size <= Payload(b) < Need(size) + HDR + MIN_SIZE && HDR <= addr && addr + size <= end
    ensures b !in Live(s.blocks) && Live(s'.blocks) == Live(s.blocks) + {b}
    ensures forall x :: x in Live(s.blocks) ==> b.end <= x.off || x.end <= b.off
  {
    NeedAligned(size);
    b := CarveFresh(s, end, Need(size), i);
    CarveLive(s, end, Need(size), i);
    assert b !in Live(s.blocks) by { assert b.off < b.end; }
  }

  /** Free blocks below lfree are out of reach; otherwise rt_malloc fails exactly when no free block
      is roomy enough, save that an exactly fitting block just before heap_end is passed over. */
  lemma MallocComplete(s: State, end: nat, size: nat, p: Ptr, s': State)
    requires Inv(s, end) && LowestFree(s) && !Refused(size, end) && MallocStep(s, end, size, p, s')
    ensures p == Null <==>
      forall b :: b in s.blocks && !b.used && Payload(b) >= Need(size) ==> b.end == end && Payload(b) == Need(size)
  {
    if p == Null {
      forall b | b in s.blocks && !b.used && Payload(b) >= Need(size)
        ensures b.end == end && Payload(b) == Need(size)
      {
        var j :| 0 <= j < |s.blocks| && s.blocks[j] == b;
        assert !Fits(s.blocks[j], Need(size), end);
      }
    } else {
      var i :| MallocAt(s, end, size, i, p, s');
      assert s.blocks[i] in s.blocks;
    }
  }

  /** A heap as rt_system_heap_init leaves it, with one free block of 116 bytes that is not given out to a request
      for 116 bytes. */
  lemma ExactFitRefused(p: Ptr, s': State)
    requires MallocStep(InitState(128), 128, 116, p, s')
    ensures Run(128, [], [InitState(128)]) && p == Null && s' == InitState(128)
    ensures var b := InitState(128).blocks[0]; !b.used && Payload(b) == 116 == Need(116)
  {
    var s := InitState(128);
    assert s.blocks == [Block(0, 128, false)];
    forall i ensures !MallocAt(s, 128, 116, i, p, s') {}
  }

  // ---------- when the search of rt_malloc ends ----------

  const WORD: int := 0x1_0000_0000

  /** The bound of the search loop, mem_size_aligned - size in 32 bits. */
  function Bound(end: nat, size: nat): nat
  {
    (end - HDR - Need(size)) % WORD
  }

  /** Where the `next` field of the header at `x` leads; that of heap_end leads to itself. */
  ghost function Follow(a: seq<Block>, end: nat, x: nat): (y: nat)
    ensures (exists i :: 0 <= i < |a| && a[i].off == x && a[i].end == y) || y == end
  {
    if i :| 0 <= i < |a| && a[i].off == x then a[i].end else end
  }

  /** The loop variable of the search after `k` rounds. */
  ghost function Pointer(s: State, end: nat, k: nat): nat {
    if k == 0 then s.lfree else Follow(s.blocks, end, Pointer(s, end, k - 1))
  }

  /** A round that ends the search: the bound is reached, or a free block is large enough. */
  ghost predicate StopsAt(s: State, end: nat, size: nat, k: nat) {
    || Pointer(s, end, k) >= Bound(end, size)
    || exists i ::
      0 <= i < |s.blocks| && s.blocks[i].off == Pointer(s, end, k) && !s.blocks[i].used &&
      Payload(s.blocks[i]) >= Need(size)
  }

  lemma FollowOff(a: seq<Block>, end: nat, k: nat)
    requires Tiles(a, 0, end) && k <= |a|
    ensures Follow(a, end, OffAt(a, k, end)) == OffAt(a, if k < |a| then k + 1 else k, end)
  {
    Ordered(a, 0, end);
    var x := OffAt(a, k, end);
    if k < |a| {
      assert a[k].off == x;
      var i :| 0 <= i < |a| && a[i].off == x && Follow(a, end, x) == a[i].end;
      assert i == k;
    }
  }

  lemma {:induction false} PointerAt(s: State, end: nat, j: nat, k: nat)
    requires Tiles(s.blocks, 0, end) && j <= |s.blocks| && s.lfree == OffAt(s.blocks, j, end)
    ensures Pointer(s, end, k) == OffAt(s.blocks, if j + k <= |s.blocks| then j + k else |s.blocks|, end)
  {
    if k > 0 {
      PointerAt(s, end, j, k - 1);
      FollowOff(s.blocks, end, if j + k - 1 <= |s.blocks| then j + k - 1 else |s.blocks|);
    }
  }

  /** A pointer never gets past heap_end, and where nothing fits and the bound has wrapped nothing stops it. */
  lemma NeverStops(s: State, end: nat, size: nat, j: nat, k: nat)
    requires Inv(s, end) && !Refused(size, end) && end + HDR < WORD && Need(size) + HDR > end
    requires j <= |s.blocks| && s.lfree == OffAt(s.blocks, j, end)
    ensures !StopsAt(s, end, size, k)
  {
    Ordered(s.blocks, 0, end);
    PointerAt(s, end, j, k);
    assert Bound(end, size) == end - HDR - Need(size) + WORD;
  }

  /** The search of rt_malloc comes to an end exactly when its bound does not wrap around: a request that is not
      refused at once must leave room for the least payload in the heap. */
  lemma SearchEndsIff(s: State, end: nat, size: nat)
    requires Inv(s, end) && !Refused(size, end) && end + HDR < WORD
    ensures (exists k: nat :: StopsAt(s, end, size, k)) <==> Need(size) + HDR <= end
  {
    Ordered(s.blocks, 0, end);
    var j: nat := if s.lfree == end then |s.blocks| else var j :| 0 <= j < |s.blocks| && s.blocks[j].off == s.lfree; j;
    if Need(size) + HDR <= end {
      PointerAt(s, end, j, |s.blocks|);
      assert StopsAt(s, end, size, |s.blocks|);
    } else {
      forall k: nat ensures !StopsAt(s, end, size, k) { NeverStops(s, end, size, j, k); }
    }
  }

  /** With 4 bytes of heap, a request for one byte is searched for without end. */
  lemma EndlessSearch(k: nat)
    ensures HeapEndOk(16) && !Refused(1, 16) && !StopsAt(InitState(16), 16, 1, k)
  {
    InitInv(16);
    SearchEndsIff(InitState(16), 16, 1);
  }

  // ---------- rt_free undoes rt_malloc ----------

  lemma MallocFreeRoundTrip(s: State, end: nat, size: nat, addr: int, m: State, s': State)
    requires Inv(s, end) && MallocStep(s, end, size, At(addr), m) && FreeStep(m, end, At(addr), s')
    ensures s' == s.(max := m.max)
  {
    var b := MallocFresh(s, end, size, addr, m);
    var x :| LiveAt(m, At(addr), x) && FreeBlock(m, end, x, s');
    MallocKeepsInv(s, end, size, At(addr), m);
    LiveIn(m.blocks);
    Ordered(m.blocks, 0, end);
    assert x == b;
    assert b !in Live(s.blocks) by {
      LiveIn(s.blocks);
      Ordered(s.blocks, 0, end);
    }
    TilingUnique(s.blocks, s'.blocks, 0, end);
    FreeKeepsInv(m, end, At(addr), s');
    RoundTripLfree(s, end, size, addr, m, b, s');
  }

  lemma RoundTripLfree(s: State, end: nat, size: nat, addr: int, m: State, b: Block, s': State)
    requires Inv(s, end) && MallocStep(s, end, size, At(addr), m) && addr == b.off + HDR
    requires s'.blocks == s.blocks && StartOfFree(s'.blocks, Min(b.off, m.lfree), s'.lfree, end)
    requires b.off < end
    ensures s'.lfree == s.lfree
  {
    var i :| MallocAt(s, end, size, i, At(addr), m);
    NeedAligned(size);
    CarveTiles(s.blocks[i], Need(size));
    assert b.off == s.blocks[i].off;
    Ordered(s.blocks, 0, end);
    assert Min(b.off, m.lfree) == s.lfree;
    assert s.lfree != end;
  }

  // ---------- lfree ----------

  lemma CarvedFree(s: State, end: nat, need: nat, i: nat, k: nat)
    requires Inv(s, end) && i < |s.blocks| && !s.blocks[i].used
    requires need % 4 == 0 && ALIGN <= need <= Payload(s.blocks[i])
    requires var a := Splice(s.blocks, i, i + 1, Carve(s.blocks[i], need)); k < |a| && !a[k].used
    ensures var a := Splice(s.blocks, i, i + 1, Carve(s.blocks[i], need));
      a[k] in s.blocks || a[k].off > s.blocks[i].off
  {
    var c := Carve(s.blocks[i], need);
    var a := Splice(s.blocks, i, i + 1, c);
    CarveTiles(s.blocks[i], need);
    if k < i { assert a[k] == s.blocks[k]; }
    else if k < i + |c| { assert a[k] == c[k - i]; }
    else { assert a[k] == s.blocks[k - |c| + 1]; }
  }

  lemma MallocKeepsLowest(s: State, end: nat, size: nat, p: Ptr, s': State)
    requires Inv(s, end) && LowestFree(s) && MallocStep(s, end, size, p, s')
    ensures LowestFree(s')
  {
    if p != Null {
      var i :| MallocAt(s, end, size, i, p, s');
      NeedAligned(size);
      forall k | 0 <= k < |s'.blocks| && !s'.blocks[k].used ensures s'.lfree <= s'.blocks[k].off {
        CarvedFree(s, end, Need(size), i, k);
      }
    }
  }

  /** Below lfree and below the freed block nothing becomes free. */
  lemma FreeKeepsLowest(s: State, end: nat, p: Ptr, s': State)
    requires Inv(s, end) && LowestFree(s) && FreeStep(s, end, p, s')
    ensures LowestFree(s')
  {
    if p != Null {
      var b :| LiveAt(s, p, b) && FreeBlock(s, end, b, s');
      BlockBounds(s.blocks, end, b);
      forall i | 0 <= i < |s'.blocks| && !s'.blocks[i].used ensures s'.lfree <= s'.blocks[i].off {
        if s'.blocks[i].off < s'.lfree { NoFreeBelow(s, end, b, s', i); }
      }
    }
  }

  lemma BlockBounds(a: seq<Block>, end: nat, b: Block)
    requires Tiles(a, 0, end) && b in Live(a)
    ensures b in a && b.used && b.off < b.end <= end
  {
    LiveIn(a);
    Ordered(a, 0, end);
  }

  lemma OffsetBelow(a: seq<Block>, end: nat, i: nat)
    requires Tiles(a, 0, end) && i < |a|
    ensures a[i].off < a[i].end <= end
  {
    Ordered(a, 0, end);
  }

  lemma NoFreeBelow(s: State, end: nat, b: Block, s': State, i: nat)
    requires Inv(s, end) && LowestFree(s) && b in Live(s.blocks) && FreeBlock(s, end, b, s')
    requires i < |s'.blocks| && !s'.blocks[i].used && Min(b.off, s.lfree) < end
    ensures s'.lfree <= s'.blocks[i].off
  {
    var y := Min(b.off, s.lfree);
    var f :| 0 <= f < |s'.blocks| && !s'.blocks[f].used && s'.blocks[f].off == s'.lfree <= y < s'.blocks[f].end;
    Ordered(s'.blocks, 0, end);
    if s'.blocks[i].off < s'.lfree {
      assert i < f && s'.blocks[i].end <= y;
      var x := s'.blocks[i].off;
      Covered(s.blocks, 0, end, x);
      var j :| 0 <= j < |s.blocks| && s.blocks[j].off <= x < s.blocks[j].end;
      LiveIn(s.blocks);
      FreeLiveApart(s'.blocks, end, i, s.blocks[j]);
    }
  }

  /** rt_realloc cuts a block that lies below lfree and whose successor is not free. */
  ghost predicate CutsBelow(s: State, end: nat, e: Event) {
    && e.ReallocEv? && 0 < Align(e.size) && Align(e.size) + HDR <= end
    && e.p.At? && 0 <= e.p.addr < end
    && exists b :: LiveAt(s, e.p, b) && Payload(b) != Align(e.size) && Shrinks(b, Align(e.size))
        && b.off < s.lfree && !IsFreeAt(s.blocks, b.end)
  }

  /** The first offset behind what is kept of block `b` lies in no live block. */
  lemma TailOutside(s: State, end: nat, b: Block, n: nat, s': State)
    requires Inv(s, end) && b in Live(s.blocks) && 0 < n && Shrinks(b, n) && ShrinkBlock(s, end, b, n, s')
    ensures var t := b.off + HDR + n;
      t < end && Block(b.off, t, true) in Live(s'.blocks) && forall x :: x in Live(s'.blocks) ==> !(x.off <= t < x.end)
  {
    LiveIn(s.blocks);
    Ordered(s.blocks, 0, end);
  }

  lemma TailFree(s: State, end: nat, b: Block, n: nat, s': State)
    requires Inv(s, end) && b in Live(s.blocks) && 0 < n && Shrinks(b, n) && ShrinkBlock(s, end, b, n, s')
    ensures IsFreeAt(s'.blocks, b.off + HDR + n)
  {
    var t := b.off + HDR + n;
    var kept := Block(b.off, t, true);
    TailOutside(s, end, b, n, s');
    FreeCovered(s'.blocks, end, t);
    var i :| 0 <= i < |s'.blocks| && s'.blocks[i].off <= t < s'.blocks[i].end && !s'.blocks[i].used;
    FreeLiveApart(s'.blocks, end, i, kept);
  }

  /** A block of the heap before the cut that is neither `b` nor free is in the heap after it. */
  lemma ShrinkOthers(s: State, end: nat, b: Block, n: nat, s': State, i: nat)
    requires Inv(s, end) && LowestFree(s) && b in Live(s.blocks) && 0 < n && Shrinks(b, n)
    requires ShrinkBlock(s, end, b, n, s')
    requires i < |s'.blocks| && !s'.blocks[i].used && s'.blocks[i].off < s.lfree
    ensures b.off < s'.blocks[i].off < b.end
  {
    LiveIn(s.blocks);
    var x := s'.blocks[i].off;
    OffsetBelow(s'.blocks, end, i);
    Covered(s.blocks, 0, end, x);
    var j :| 0 <= j < |s.blocks| && s.blocks[j].off <= x < s.blocks[j].end;
    if s.blocks[j] != b {
      assert s.blocks[j] in Live(s'.blocks);
      FreeLiveApart(s'.blocks, end, i, s.blocks[j]);
    } else if x == b.off {
      var kept := Block(b.off, b.off + HDR + n, true);
      FreeLiveApart(s'.blocks, end, i, kept);
    }
  }

  /** From a state where lfree is lowest, cutting keeps it lowest unless the new free tail is
      below lfree and stays apart from it. */
  lemma ShrinkLowestIff(s: State, end: nat, b: Block, n: nat, s': State)
    requires Inv(s, end) && LowestFree(s) && b in Live(s.blocks) && 0 < n && Shrinks(b, n)
    requires ShrinkBlock(s, end, b, n, s')
    ensures LowestFree(s') <==> !(b.off < s.lfree && !IsFreeAt(s.blocks, b.end))
  {
    TailFree(s, end, b, n, s');
    BlockBounds(s.blocks, end, b);
    if b.off < s.lfree && !IsFreeAt(s.blocks, b.end) {
      AboveTail(s, end, b, n, s');
    } else {
      if b.off < s.lfree { LfreeAfterB(s, end, b, n, s'); }
      forall i | 0 <= i < |s'.blocks| && !s'.blocks[i].used ensures s'.lfree <= s'.blocks[i].off {
        ShrinkFreeAbove(s, end, b, n, s', i);
      }
    }
  }

  lemma ShrinkFreeAbove(s: State, end: nat, b: Block, n: nat, s': State, i: nat)
    requires Inv(s, end) && LowestFree(s) && b in Live(s.blocks) && 0 < n && Shrinks(b, n)
    requires ShrinkBlock(s, end, b, n, s')
    requires i < |s'.blocks| && !s'.blocks[i].used
    requires s.lfree <= b.off || s'.lfree == b.off + HDR + n
    ensures s'.lfree <= s'.blocks[i].off
  {
    Ordered(s'.blocks, 0, end);
    BlockBounds(s.blocks, end, b);
    if s'.blocks[i].off < s'.lfree {
      assert s'.lfree <= s.lfree || s.lfree == end;
      if s'.blocks[i].off < s.lfree {
        ShrinkOthers(s, end, b, n, s', i);
        FreeLiveApart(s'.blocks, end, i, Block(b.off, b.off + HDR + n, true));
      }
    }
  }

  /** The joined free tail does not end inside the cut block when its successor is used. */
  lemma TailEnds(s: State, end: nat, b: Block, n: nat, s': State, i: nat)
    requires Inv(s, end) && b in Live(s.blocks) && ShrinkBlock(s, end, b, n, s') && Shrinks(b, n)
    requires i < |s'.blocks| && !s'.blocks[i].used && s'.blocks[i].off == b.off + HDR + n
    ensures IsFreeAt(s.blocks, b.end) ==> b.end < s'.blocks[i].end
    ensures !IsFreeAt(s.blocks, b.end) ==> s'.blocks[i].end <= b.end
  {
    var t := b.off + HDR + n;
    var x := s'.blocks[i];
    Ordered(s'.blocks, 0, end);
    BlockBounds(s.blocks, end, b);
    if !IsFreeAt(s.blocks, b.end) && b.end < end {
      var u := Successor(s, end, b);
      LiveIn(s'.blocks);
      FreeLiveApart(s'.blocks, end, i, u);
    }
    if IsFreeAt(s.blocks, b.end) && x.end <= b.end {
      var k :| 0 <= k < |s.blocks| && s.blocks[k].off == b.end && !s.blocks[k].used;
      BlockAtEnd(s.blocks, end, k);
      var u := s'.blocks[i + 1];
      LiveIn(s'.blocks);
      assert u in Live(s'.blocks) && u.off == x.end;
      assert u != Block(b.off, t, true);
      FreeLiveApart(s.blocks, end, k, u);
      LiveIn(s.blocks);
      DistinctBlocksDisjoint(s.blocks, 0, end, u, b);
    }
  }

  lemma BlockAtEnd(a: seq<Block>, end: nat, k: nat)
    requires Tiles(a, 0, end) && k < |a|
    ensures a[k].off < end
  {
    Ordered(a, 0, end);
  }

  /** A live block that does not reach the end and is not followed by a free block is followed by a live one. */
  lemma Successor(s: State, end: nat, b: Block) returns (u: Block)
    requires Inv(s, end) && b in Live(s.blocks) && b.end < end && !IsFreeAt(s.blocks, b.end)
    ensures u in Live(s.blocks) && u.off == b.end && u != b
  {
    LiveIn(s.blocks);
    Ordered(s.blocks, 0, end);
    var k :| 0 <= k < |s.blocks| && s.blocks[k] == b;
    u := s.blocks[k + 1];
  }

  /** A cut below lfree whose successor is used leaves lfree above the new free tail. */
  lemma AboveTail(s: State, end: nat, b: Block, n: nat, s': State)
    requires Inv(s, end) && b in Live(s.blocks) && 0 < n && Shrinks(b, n) && ShrinkBlock(s, end, b, n, s')
    requires b.off < s.lfree && !IsFreeAt(s.blocks, b.end) && IsFreeAt(s'.blocks, b.off + HDR + n)
    ensures !LowestFree(s')
  {
    var t := b.off + HDR + n;
    var i :| 0 <= i < |s'.blocks| && s'.blocks[i].off == t && !s'.blocks[i].used;
    TailEnds(s, end, b, n, s', i);
    BlockAtEnd(s'.blocks, end, i);
    if s.lfree != end {
      var k :| 0 <= k < |s.blocks| && s.blocks[k].off == s.lfree && !s.blocks[k].used;
      FreeLiveApart(s.blocks, end, k, b);
      Ordered(s'.blocks, 0, end);
    }
  }

  /** With a free successor, a cut below lfree makes lfree the start of the joined tail. */
  lemma LfreeAfterB(s: State, end: nat, b: Block, n: nat, s': State)
    requires Inv(s, end) && LowestFree(s) && b in Live(s.blocks) && 0 < n && Shrinks(b, n)
    requires ShrinkBlock(s, end, b, n, s')
    requires b.off < s.lfree && IsFreeAt(s.blocks, b.end) && IsFreeAt(s'.blocks, b.off + HDR + n)
    ensures s'.lfree == b.off + HDR + n
  {
    var i :| 0 <= i < |s'.blocks| && s'.blocks[i].off == b.off + HDR + n && !s'.blocks[i].used;
    TailEnds(s, end, b, n, s', i);
    var f :| 0 <= f < |s.blocks| && s.blocks[f].off == b.end && !s.blocks[f].used;
    BlockAtEnd(s.blocks, end, f);
    if s.lfree != b.end {
      var k :| 0 <= k < |s.blocks| && s.blocks[k].off == s.lfree && !s.blocks[k].used;
      FreeLiveApart(s.blocks, end, k, b);
    }
    Ordered(s'.blocks, 0, end);
  }

  /** From a state where lfree is lowest, one call leaves it lowest unless it cuts below lfree. */
  lemma StepLowestIff(s: State, end: nat, e: Event, s': State)
    requires Inv(s, end) && LowestFree(s) && Step(s, end, e, s')
    ensures LowestFree(s') <==> !CutsBelow(s, end, e)
  {
    match e
    case MallocEv(size, p) => MallocKeepsLowest(s, end, size, p, s');
    case FreeEv(p) => FreeKeepsLowest(s, end, p, s');
    case ReallocEv(p, size, r) =>
      var n := Align(size);
      if n + HDR > end {
      } else if n == 0 {
        FreeKeepsLowest(s, end, p, s');
      } else if p == Null {
        MallocKeepsLowest(s, end, n, r, s');
      } else if 0 <= p.addr < end {
        ReallocLowestIff(s, end, e, s');
      }
  }

  lemma ReallocLowestIff(s: State, end: nat, e: Event, s': State)
    requires Inv(s, end) && LowestFree(s) && Step(s, end, e, s')
    requires e.ReallocEv? && 0 < Align(e.size) && Align(e.size) + HDR <= end && e.p.At? && 0 <= e.p.addr < end
    ensures LowestFree(s') <==> !CutsBelow(s, end, e)
  {
    var n := Align(e.size);
    var b :| LiveAt(s, e.p, b) && ReallocLive(s, end, e.p, b, n, e.r, s');
    forall x | LiveAt(s, e.p, x) ensures x == b { SameAddress(s, end, x, b); }
    if Payload(b) == n {
    } else if Shrinks(b, n) {
      ShrinkLowestIff(s, end, b, n, s');
    } else if e.r == Null {
      MallocKeepsLowest(s, end, n, e.r, s');
    } else {
      var m :| MallocStep(s, end, n, e.r, m) && FreeStep(m, end, e.p, s');
      MallocKeepsInv(s, end, n, e.r, m);
      MallocKeepsLowest(s, end, n, e.r, m);
      FreeKeepsLowest(m, end, e.p, s');
    }
  }

  lemma SameAddress(s: State, end: nat, x: Block, y: Block)
    requires Inv(s, end) && x in Live(s.blocks) && y in Live(s.blocks) && x.off == y.off
    ensures x == y
  {
    LiveIn(s.blocks);
    Ordered(s.blocks, 0, end);
  }

  // ---------- what realloc hands out ----------

  /** Room for `size` bytes, and no more than a block of its own could use besides. */
  predicate Suits(c: Block, size: nat) {
    size <= Payload(c) < Need(size) + HDR + MIN_SIZE
  }

  /** A new live block with room for `size` bytes is at `r`, in place of `b`; no other block begins or ends to be
      live. */
  ghost predicate Exchanged(s: State, b: Block, size: nat, r: Ptr, s': State) {
    exists c :: LiveAt(s', r, c) && Suits(c, size) && c !in Live(s.blocks) - {b}
      && Live(s'.blocks) == Live(s.blocks) - {b} + {c}
  }

  /** A new live block with room for `size` bytes is at `r`; nothing else changes about the live blocks. */
  ghost predicate Added(s: State, size: nat, r: Ptr, s': State) {
    exists c :: LiveAt(s', r, c) && Suits(c, size) && c !in Live(s.blocks) && Live(s'.blocks) == Live(s.blocks) + {c}
  }

  /** No free block from lfree on can take a request for `size` bytes: an exactly fitting one before heap_end cannot. */
  ghost predicate NoRoom(s: State, end: nat, size: nat) {
    forall b :: b in s.blocks && !b.used && s.lfree <= b.off && Payload(b) >= Need(size) ==>
      b.end == end && Payload(b) == Need(size)
  }

  /** Whatever rt_realloc returns for a live block has room for the request, and takes the place of that block; the
      address stays exactly when the block fits or its tail is cut off. */
  lemma ReallocRoom(s: State, end: nat, p: Ptr, b: Block, size: nat, r: Ptr, s': State)
    requires Inv(s, end) && LiveAt(s, p, b) && size > 0 && ReallocStep(s, end, p, size, r, s') && r.At?
    ensures Exchanged(s, b, size, r, s')
    ensures r == p <==> Payload(b) == Align(size) || Shrinks(b, Align(size))
  {
    var n := Align(size);
    BlockBounds(s.blocks, end, b);
    var x :| LiveAt(s, p, x) && ReallocLive(s, end, p, x, n, r, s');
    SameAddress(s, end, x, b);
    if Payload(b) == n {
      KeptRoom(s, b, n, p);
    } else if Shrinks(b, n) {
      CutRoom(s, end, b, n, s');
    } else {
      MovedRoom(s, end, p, b, n, r, s');
    }
    Rounded(s, b, size, r, s');
  }

  lemma Rounded(s: State, b: Block, size: nat, r: Ptr, s': State)
    requires Exchanged(s, b, Align(size), r, s')
    ensures Exchanged(s, b, size, r, s')
  {
    NeedAligned(size);
    assert Align(Align(size)) == Align(size);
  }

  lemma KeptRoom(s: State, b: Block, n: nat, p: Ptr)
    requires LiveAt(s, p, b) && Payload(b) == n
    ensures Exchanged(s, b, n, p, s)
  {
    NeedAligned(n);
    assert LiveAt(s, p, b);
  }

  lemma CutRoom(s: State, end: nat, b: Block, n: nat, s': State)
    requires Inv(s, end) && b in Live(s.blocks) && Shrinks(b, n) && ShrinkBlock(s, end, b, n, s')
    ensures Exchanged(s, b, n, At(b.off + HDR), s')
  {
    var c := Block(b.off, b.off + HDR + n, true);
    NeedAligned(n);
    if c in Live(s.blocks) { SameAddress(s, end, b, c); }
    assert LiveAt(s', At(b.off + HDR), c);
  }

  lemma MovedRoom(s: State, end: nat, p: Ptr, b: Block, n: nat, r: Ptr, s': State)
    requires Inv(s, end) && LiveAt(s, p, b) && r.At? && Move(s, end, p, n, r, s')
    ensures Exchanged(s, b, n, r, s') && r != p
  {
    var m :| MallocStep(s, end, n, r, m) && FreeStep(m, end, p, s');
    var c := MallocFresh(s, end, n, r.addr, m);
    MallocKeepsInv(s, end, n, r, m);
    BlockBounds(s.blocks, end, b);
    FreedOther(s, m, end, p, b, c, n, r, s');
  }

  lemma FreedOther(s: State, m: State, end: nat, p: Ptr, b: Block, c: Block, n: nat, r: Ptr, s': State)
    requires Inv(m, end) && LiveAt(s, p, b) && LiveAt(m, r, c) && Suits(c, n) && c !in Live(s.blocks)
    requires Live(m.blocks) == Live(s.blocks) + {c} && FreeStep(m, end, p, s') && r != p
    ensures Exchanged(s, b, n, r, s')
  {
    var x :| LiveAt(m, p, x) && FreeBlock(m, end, x, s');
    SameAddress(m, end, x, b);
    assert LiveAt(s', r, c);
  }

  /** For NULL it is rt_malloc. */
  lemma ReallocNew(s: State, end: nat, size: nat, r: Ptr, s': State)
    requires Inv(s, end) && size > 0 && ReallocStep(s, end, Null, size, r, s') && r.At?
    ensures Added(s, size, r, s')
  {
    var c := MallocFresh(s, end, Align(size), r.addr, s');
    NeedAligned(size);
    assert LiveAt(s', r, c) && Suits(c, size);
  }

  /** A request for 0 bytes frees the block, and nothing but the block. */
  lemma ReallocZero(s: State, end: nat, p: Ptr, b: Block, r: Ptr, s': State)
    requires Inv(s, end) && HDR <= end && LiveAt(s, p, b) && ReallocStep(s, end, p, 0, r, s')
    ensures r == Null && Live(s'.blocks) == Live(s.blocks) - {b}
  {
    var x :| LiveAt(s, p, x) && FreeBlock(s, end, x, s');
    SameAddress(s, end, x, b);
  }

  /** Both, for any pointer rt_realloc takes. */
  lemma Returned(s: State, end: nat, p: Ptr, size: nat, r: Ptr, s': State)
    requires Inv(s, end) && size > 0 && ReallocStep(s, end, p, size, r, s') && r.At?
    ensures forall b :: LiveAt(s, p, b) ==> Exchanged(s, b, size, r, s')
    ensures p == Null ==> Added(s, size, r, s')
  {
    forall b | LiveAt(s, p, b) ensures Exchanged(s, b, size, r, s') { ReallocRoom(s, end, p, b, size, r, s'); }
    if p == Null { ReallocNew(s, end, size, r, s'); }
  }

  /** rt_realloc gives NULL, and leaves everything as it was, exactly when the request exceeds the heap, or when the
      block can neither stay nor be cut and there is no room elsewhere. */
  lemma ReallocNull(s: State, end: nat, p: Ptr, b: Block, size: nat, r: Ptr, s': State)
    requires Inv(s, end) && LiveAt(s, p, b) && size > 0 && ReallocStep(s, end, p, size, r, s')
    ensures r == Null <==>
      || Align(size) + HDR > end
      || (Payload(b) != Align(size) && !Shrinks(b, Align(size)) && NoRoom(s, end, Align(size)))
    ensures r == Null ==> s' == s
  {
    var n := Align(size);
    BlockBounds(s.blocks, end, b);
    if n + HDR <= end {
      var x :| LiveAt(s, p, x) && ReallocLive(s, end, p, x, n, r, s');
      SameAddress(s, end, x, b);
      if Payload(b) != n && !Shrinks(b, n) { MovedNull(s, end, p, n, r, s'); }
    }
  }

  lemma MovedNull(s: State, end: nat, p: Ptr, n: nat, r: Ptr, s': State)
    requires !Refused(n, end) && Move(s, end, p, n, r, s')
    ensures (r == Null <==> NoRoom(s, end, n)) && (r == Null ==> s' == s)
  {
    if r == Null {
      NullNoRoom(s, end, n, s');
    } else {
      var m :| MallocStep(s, end, n, r, m) && FreeStep(m, end, p, s');
      var i :| MallocAt(s, end, n, i, r, m);
      assert s.blocks[i] in s.blocks;
    }
  }

  lemma NullNoRoom(s: State, end: nat, n: nat, s': State)
    requires !Refused(n, end) && MallocStep(s, end, n, Null, s')
    ensures NoRoom(s, end, n)
  {
    forall b | b in s.blocks && !b.used && s.lfree <= b.off && Payload(b) >= Need(n)
      ensures b.end == end && Payload(b) == Need(n)
    {
      var j :| 0 <= j < |s.blocks| && s.blocks[j] == b;
      assert !Fits(s.blocks[j], Need(n), end);
    }
  }

  /** In a run without such a cut, lfree is the lowest free block in every state. */
  lemma {:induction false} RunLowest(end: nat, es: seq<Event>, ss: seq<State>, k: nat)
    requires HeapEndOk(end) && Run(end, es, ss) && k < |ss|
    requires forall i :: 0 <= i < k ==> !CutsBelow(ss[i], end, es[i])
    ensures LowestFree(ss[k])
  {
    if k == 0 {
      InitInv(end);
    } else {
      RunLowest(end, es, ss, k - 1);
      RunInv(end, es, ss, k - 1);
      StepLowestIff(ss[k - 1], end, es[k - 1], ss[k]);
    }
  }

  /** Three calls after which rt_malloc refuses 40 bytes although 96 are free in one block. */
  lemma CutLosesFreeBlock()
    ensures var taken := State([Block(0, 128, true)], 128, 128, 128);
      var cut := State([Block(0, 20, true), Block(20, 128, false)], 128, 20, 128);
      && Run(128, [MallocEv(100, At(12)), ReallocEv(At(12), 8, At(12)), MallocEv(40, Null)],
        [InitState(128), taken, cut, cut])
      && Payload(cut.blocks[1]) == 96 && !cut.blocks[1].used
  {
    var taken := State([Block(0, 128, true)], 128, 128, 128);
    var cut := State([Block(0, 20, true), Block(20, 128, false)], 128, 20, 128);
    var init := InitState(128);
    InitInv(128);
    assert MallocStep(init, 128, 100, At(12), taken) by {
      assert Splice(init.blocks, 0, 1, Carve(init.blocks[0], 100)) == taken.blocks;
      assert init.blocks[0].off == init.lfree;
      assert MallocAt(init, 128, 100, 0, At(12), taken);
    }
    assert ReallocStep(taken, 128, At(12), 8, At(12), cut) by {
      var b := Block(0, 128, true);
      assert taken.blocks[1..] == [];
      assert Live(taken.blocks) == {b};
      TwoBlocks(cut.blocks[0], cut.blocks[1]);
      assert Live(cut.blocks) == Live(taken.blocks) - {b} + {Block(0, 20, true)};
      assert ShrinkBlock(taken, 128, b, 8, cut);
      assert LiveAt(taken, At(12), b);
      assert ReallocLive(taken, 128, At(12), b, 8, At(12), cut);
    }
    assert MallocStep(cut, 128, 40, Null, cut);
  }
}
