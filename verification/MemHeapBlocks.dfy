/** Exchanging neighbouring blocks of a memheap (rt-thread/src/memheap.c): what happens to the two rings, the
    used marks and the free bytes. Offsets are relative to the start of the pool. */
module MemHeapBlocks {
  import opened HeapBlocks
  import L = Links

  const HEADER: nat := 24    // RT_MEMHEAP_SIZE
  const MINIALLOC: nat := 12 // RT_MEMHEAP_MINIALLOC
  const LIST: int := -1      // free_header, the node of the free list that is no block

  function Payload(b: Block): int {
    b.end - b.off - HEADER
  }

  /** Total payload of the unused blocks. */
  ghost function FreeSum(a: seq<Block>): int {
    if a == [] then 0 else (if a[0].used then 0 else Payload(a[0])) + FreeSum(a[1..])
  }

  lemma {:induction false} FreeSumConcat(a: seq<Block>, b: seq<Block>)
    ensures FreeSum(a + b) == FreeSum(a) + FreeSum(b)
  {
    if a == [] {
      assert a + b == b;
    } else {
      assert (a + b)[1..] == a[1..] + b;
      FreeSumConcat(a[1..], b);
    }
  }

  lemma FreeSumSplice(a: seq<Block>, lo: nat, hi: nat, mid: seq<Block>)
    requires lo <= hi <= |a|
    ensures FreeSum(Splice(a, lo, hi, mid)) == FreeSum(a) - FreeSum(a[lo..hi]) + FreeSum(mid)
  {
    assert a == a[..lo] + (a[lo..hi] + a[hi..]);
    FreeSumConcat(a[lo..hi], a[hi..]);
    FreeSumConcat(a[..lo], a[lo..hi] + a[hi..]);
    FreeSumConcat(mid, a[hi..]);
    FreeSumConcat(a[..lo], mid + a[hi..]);
  }

  lemma FreeSumOf(a: Block, b: Block)
    ensures FreeSum([a]) == if a.used then 0 else Payload(a)
    ensures FreeSum([a, b]) == (if a.used then 0 else Payload(a)) + if b.used then 0 else Payload(b)
  {
    assert [a, b][1..] == [b] && [b][1..] == [] && [a][1..] == [];
  }

  /** The blocks left and right of the exchanged ones stay. */
  lemma SpliceIn(a: seq<Block>, lo: nat, hi: nat, mid: seq<Block>)
    requires lo <= hi <= |a|
    ensures forall b :: b in Splice(a, lo, hi, mid) <==> b in a[..lo] || b in mid || b in a[hi..]
  {
  }

  lemma NoTwoFreeSplice(a: seq<Block>, lo: nat, hi: nat, mid: seq<Block>)
    requires lo <= hi <= |a| && NoTwoFree(a) && NoTwoFree(mid) && mid != []
    requires lo > 0 ==> a[lo - 1].used || mid[0].used
    requires hi < |a| ==> a[hi].used || mid[|mid| - 1].used
    ensures NoTwoFree(Splice(a, lo, hi, mid))
  {
    var s := Splice(a, lo, hi, mid);
    forall i, j | 0 <= i < |s| && j == i + 1 < |s| ensures s[i].used || s[j].used {
      if j < lo { assert s[i] == a[i] && s[j] == a[j]; }
      else if lo <= i && j < lo + |mid| { assert s[i] == mid[i - lo] && s[j] == mid[j - lo]; }
      else if i >= lo + |mid| { assert s[i] == a[i - lo - |mid| + hi] && s[j] == a[j - lo - |mid| + hi]; }
    }
  }

  // ---------- the address ring ----------

  /** next leads from each block to its end, prev back, and the tail block closes the ring. */
  ghost predicate Linked(next: map<int, int>, prev: map<int, int>, a: seq<Block>, tail: nat) {
    && (forall b :: b in a ==> b.off in next && next[b.off] == b.end && b.end in prev && prev[b.end] == b.off)
    && tail in next && next[tail] == 0 && 0 in prev && prev[0] == tail
  }

  /** Where the blocks left and right of a range lie. */
  lemma Sides(a: seq<Block>, lo: nat, hi: nat, tail: nat)
    requires Tiles(a, 0, tail) && lo <= hi <= |a|
    ensures OffAt(a, lo, tail) <= OffAt(a, hi, tail) <= tail
    ensures forall b :: b in a[..lo] ==> b in a && b.off < b.end <= OffAt(a, lo, tail)
    ensures forall b :: b in a[hi..] ==> b in a && OffAt(a, hi, tail) <= b.off < b.end <= tail
  {
    TilesCut(a, lo, 0, tail);
    TilesCut(a, hi, 0, tail);
    Ordered(a, 0, tail);
    Ordered(a[..lo], 0, OffAt(a, lo, tail));
    Ordered(a[hi..], OffAt(a, hi, tail), tail);
  }

  lemma LinkedSplice(next: map<int, int>, prev: map<int, int>, a: seq<Block>, tail: nat, lo: nat, hi: nat,
                     mid: seq<Block>, next': map<int, int>, prev': map<int, int>)
    requires Linked(next, prev, a, tail) && Tiles(a, 0, tail) && lo < hi <= |a|
    requires forall b :: b in mid ==> b.off in next' && next'[b.off] == b.end && b.end in prev' && prev'[b.end] == b.off
    requires forall x :: x in next && (x < OffAt(a, lo, tail) || x >= OffAt(a, hi, tail)) ==>
      x in next' && next'[x] == next[x]
    requires forall x :: x in prev && (x <= OffAt(a, lo, tail) || x > OffAt(a, hi, tail)) ==>
      x in prev' && prev'[x] == prev[x]
    ensures Linked(next', prev', Splice(a, lo, hi, mid), tail)
  {
    Sides(a, lo, hi, tail);
    SpliceIn(a, lo, hi, mid);
  }

  // ---------- marks and free blocks ----------

  /** The used bit of the magic word of each block. */
  ghost predicate Marked(used: set<int>, a: seq<Block>, tail: nat) {
    tail in used && forall b :: b in a ==> (b.off in used <==> b.used)
  }

  lemma MarkedSplice(used: set<int>, a: seq<Block>, tail: nat, lo: nat, hi: nat, mid: seq<Block>, used': set<int>)
    requires Marked(used, a, tail) && Tiles(a, 0, tail) && lo < hi <= |a|
    requires forall b :: b in mid ==> (b.off in used' <==> b.used)
    requires forall x :: x < OffAt(a, lo, tail) || x >= OffAt(a, hi, tail) ==> (x in used' <==> x in used)
    ensures Marked(used', Splice(a, lo, hi, mid), tail)
  {
    Sides(a, lo, hi, tail);
    SpliceIn(a, lo, hi, mid);
  }

  ghost predicate FreeAt(a: seq<Block>, x: int) {
    exists b :: b in a && !b.used && b.off == x
  }

  /** The free list holds exactly the unused blocks. */
  ghost predicate Listed(free: seq<int>, a: seq<Block>) {
    forall x :: x in free <==> FreeAt(a, x)
  }

  lemma Middle(a: seq<Block>, tail: nat, lo: nat, hi: nat)
    requires Tiles(a, 0, tail) && lo < hi <= |a|
    ensures forall b :: b in a[lo..hi] ==> OffAt(a, lo, tail) <= b.off < OffAt(a, hi, tail)
    ensures forall b :: b in a <==> b in a[..lo] || b in a[lo..hi] || b in a[hi..]
  {
    assert a == a[..lo] + (a[lo..hi] + a[hi..]);
    TilesCut(a, hi, 0, tail);
    TilesCut(a[..hi], lo, 0, OffAt(a, hi, tail));
    assert a[..hi][lo..] == a[lo..hi] && OffAt(a[..hi], lo, OffAt(a, hi, tail)) == OffAt(a, lo, tail);
    Ordered(a[lo..hi], OffAt(a, lo, tail), OffAt(a, hi, tail));
  }

  lemma FreeAtSplice(a: seq<Block>, tail: nat, lo: nat, hi: nat, mid: seq<Block>, x: int)
    requires Tiles(a, 0, tail) && lo < hi <= |a|
    requires forall b :: b in mid ==> OffAt(a, lo, tail) <= b.off < OffAt(a, hi, tail)
    ensures FreeAt(Splice(a, lo, hi, mid), x) <==>
      if OffAt(a, lo, tail) <= x < OffAt(a, hi, tail) then FreeAt(mid, x) else FreeAt(a, x)
  {
    var s := Splice(a, lo, hi, mid);
    Sides(a, lo, hi, tail);
    SpliceIn(a, lo, hi, mid);
    Middle(a, tail, lo, hi);
    if FreeAt(s, x) {
      var b :| b in s && !b.used && b.off == x;
      if b !in mid { assert b in a; }
    }
    if FreeAt(a, x) {
      var b :| b in a && !b.used && b.off == x;
      if b !in a[lo..hi] { assert b in s; }
    }
    if FreeAt(mid, x) {
      var b :| b in mid && !b.used && b.off == x;
      assert b in s;
    }
  }

  lemma FreeAtOf(x: int, b: Block, c: Block)
    ensures FreeAt([b], x) <==> !b.used && b.off == x
    ensures FreeAt([b, c], x) <==> (!b.used && b.off == x) || (!c.used && c.off == x)
  {
    if !b.used && b.off == x { assert b in [b] && b in [b, c]; }
    if !c.used && c.off == x { assert c in [b, c]; }
  }

  /** Blocks have room for their header and lie at multiples of 4. */
  ghost predicate Sound(a: seq<Block>) {
    forall b :: b in a ==> Payload(b) >= 0 && b.off % 4 == 0 && b.end % 4 == 0
  }

  /** The tiling, the rings and the marks when the blocks `lo` to `hi` are exchanged for `mid` on the same ground. */
  lemma Exchange(a: seq<Block>, tail: nat, lo: nat, hi: nat, mid: seq<Block>, next: map<int, int>, prev: map<int, int>,
                 used: set<int>, next': map<int, int>, prev': map<int, int>, used': set<int>)
    requires Tiles(a, 0, tail) && Sound(a) && Linked(next, prev, a, tail) && Marked(used, a, tail)
    requires lo < hi <= |a| && Tiles(mid, OffAt(a, lo, tail), OffAt(a, hi, tail)) && Sound(mid)
    requires forall b :: b in mid ==> b.off in next' && next'[b.off] == b.end && b.end in prev' && prev'[b.end] == b.off
    requires forall x :: x in next && (x < OffAt(a, lo, tail) || x >= OffAt(a, hi, tail)) ==>
      x in next' && next'[x] == next[x]
    requires forall x :: x in prev && (x <= OffAt(a, lo, tail) || x > OffAt(a, hi, tail)) ==>
      x in prev' && prev'[x] == prev[x]
    requires forall b :: b in mid ==> (b.off in used' <==> b.used)
    requires forall x :: x < OffAt(a, lo, tail) || x >= OffAt(a, hi, tail) ==> (x in used' <==> x in used)
    ensures var s := Splice(a, lo, hi, mid);
      Tiles(s, 0, tail) && Sound(s) && Linked(next', prev', s, tail) && Marked(used', s, tail)
  {
    SpliceTiles(a, lo, hi, mid, 0, tail);
    SpliceIn(a, lo, hi, mid);
    Sides(a, lo, hi, tail);
    LinkedSplice(next, prev, a, tail, lo, hi, mid, next', prev');
    MarkedSplice(used, a, tail, lo, hi, mid, used');
  }

  /** The free bytes, the live blocks and the free offsets in the same case. */
  lemma ExchangeCounts(a: seq<Block>, tail: nat, lo: nat, hi: nat, mid: seq<Block>)
    requires Tiles(a, 0, tail) && lo < hi <= |a| && Tiles(mid, OffAt(a, lo, tail), OffAt(a, hi, tail))
    ensures var s := Splice(a, lo, hi, mid);
      && FreeSum(s) == FreeSum(a) - FreeSum(a[lo..hi]) + FreeSum(mid)
      && Live(s) == Live(a) - Live(a[lo..hi]) + Live(mid)
      && forall x :: FreeAt(s, x) <==>
        if OffAt(a, lo, tail) <= x < OffAt(a, hi, tail) then FreeAt(mid, x) else FreeAt(a, x)
  {
    SpliceLive(a, lo, hi, mid, 0, tail);
    FreeSumSplice(a, lo, hi, mid);
    Ordered(mid, OffAt(a, lo, tail), OffAt(a, hi, tail));
    forall x
      ensures FreeAt(Splice(a, lo, hi, mid), x) <==>
        if OffAt(a, lo, tail) <= x < OffAt(a, hi, tail) then FreeAt(mid, x) else FreeAt(a, x)
    {
      FreeAtSplice(a, tail, lo, hi, mid, x);
    }
  }

  /** One or two blocks. */
  lemma Few(b: Block, c: Block)
    ensures Live([b]) == (if b.used then {b} else {})
    ensures Live([b, c]) == (if b.used then {b} else {}) + (if c.used then {c} else {})
    ensures FreeSum([b]) == (if b.used then 0 else Payload(b))
    ensures FreeSum([b, c]) == (if b.used then 0 else Payload(b)) + if c.used then 0 else Payload(c)
    ensures forall x :: FreeAt([b], x) <==> !b.used && b.off == x
    ensures forall x :: FreeAt([b, c], x) <==> (!b.used && b.off == x) || (!c.used && c.off == x)
    ensures b.off < b.end ==> Tiles([b], b.off, b.end)
    ensures b.off < b.end == c.off < c.end ==> Tiles([b, c], b.off, c.end)
  {
    assert [b, c][1..] == [c] && [c][1..] == [] && [b][1..] == [];
    FreeSumOf(b, c);
    forall x ensures FreeAt([b], x) <==> !b.used && b.off == x { FreeAtOf(x, b, c); }
    forall x ensures FreeAt([b, c], x) <==> (!b.used && b.off == x) || (!c.used && c.off == x) { FreeAtOf(x, b, c); }
  }

  lemma Few3(b: Block, c: Block, d: Block)
    ensures Live([b, c, d]) == (if b.used then {b} else {}) + (if c.used then {c} else {}) +
      (if d.used then {d} else {})
    ensures FreeSum([b, c, d]) == (if b.used then 0 else Payload(b)) + (if c.used then 0 else Payload(c)) +
      if d.used then 0 else Payload(d)
  {
    assert [b, c, d][1..] == [c, d];
    Few(c, d);
  }

  /** Only offsets of blocks are free, and none inside a block. */
  lemma OnlyOne(a: seq<Block>, tail: nat, k: nat)
    requires Tiles(a, 0, tail) && k < |a|
    ensures forall x :: FreeAt(a, x) && a[k].off <= x < a[k].end ==> x == a[k].off
    ensures FreeAt(a, a[k].off) <==> !a[k].used
    ensures OffAt(a, k + 1, tail) == a[k].end && OffAt(a, k, tail) == a[k].off < a[k].end <= tail
  {
    Ordered(a, 0, tail);
    TilesCut(a, k + 1, 0, tail);
    forall x | FreeAt(a, x) && a[k].off <= x < a[k].end ensures x == a[k].off && !a[k].used {
      var b :| b in a && !b.used && b.off == x;
      var j :| 0 <= j < |a| && a[j] == b;
    }
    if !a[k].used { assert a[k] in a; }
  }

  // ---------- the free ring ----------

  ghost predicate FreeRing(nextFree: map<int, int>, prevFree: map<int, int>, free: seq<int>) {
    L.Ring(nextFree, prevFree, [LIST] + free)
  }

  /** The free list without its element `i`. */
  lemma Dropped(nf: map<int, int>, pf: map<int, int>, free: seq<int>, i: nat, nf': map<int, int>, pf': map<int, int>)
    requires FreeRing(nf, pf, free) && i < |free|
    requires free[i] in nf && free[i] in pf
    requires nf' == nf[pf[free[i]] := nf[free[i]]] && pf' == pf[nf[free[i]] := pf[free[i]]]
    ensures FreeRing(nf', pf', L.RemoveAt(free, i))
    ensures forall x :: x in L.RemoveAt(free, i) <==> x in free && x != free[i]
  {
    var c := [LIST] + free;
    var n := free[i];
    assert c[i + 1] == n;
    L.RemoveRing(nf, pf, nf'[n := n], pf'[n := n], c, i + 1);
    assert L.RemoveAt(c, i + 1) == [LIST] + L.RemoveAt(free, i);
    L.RemoveDistinct(c, i + 1);
    L.RingAgree(nf'[n := n], pf'[n := n], nf', pf', [LIST] + L.RemoveAt(free, i));
    assert L.Distinct(free) by {
      forall j, k | 0 <= j < k < |free| ensures free[j] != free[k] { assert c[j + 1] != c[k + 1]; }
    }
    RemovedElements(free, i);
  }

  lemma RemovedElements(free: seq<int>, i: nat)
    requires i < |free| && L.Distinct(free)
    ensures forall x :: x in L.RemoveAt(free, i) <==> x in free && x != free[i]
  {
    assert free == free[..i] + [free[i]] + free[i + 1..];
  }

  /** The free list with `n` in front. */
  lemma Added(nf: map<int, int>, pf: map<int, int>, free: seq<int>, n: int, nf': map<int, int>, pf': map<int, int>)
    requires FreeRing(nf, pf, free) && n !in free && n != LIST
    requires LIST in nf && nf' == nf[n := nf[LIST]][LIST := n] && pf' == pf[n := LIST][nf[LIST] := n]
    ensures FreeRing(nf', pf', [n] + free)
  {
    var c := [LIST] + free;
    var q := c[L.Succ(0, |c|)];
    assert nf[c[0]] == q;
    assert pf' == pf[q := n][n := LIST];
    L.InsertRing(nf, pf, nf', pf', c, 0, n);
    assert L.InsertAt(c, 1, n) == [LIST] + ([n] + free);
  }
}
