/** rt_memheap (rt-thread/src/memheap.c) as an object: item headers in an address ring, the unused ones also in
    a free ring. */
module MemHeap {
  import opened HeapBlocks
  import opened MemHeapBlocks
  import L = Links

  const NULL: int := -2

  datatype Ptr = Null | At(addr: int)

  /** RT_ALIGN to 4 bytes, and the least size of a request. */
  function Need(size: nat): (n: nat)
    ensures n >= size && n >= MINIALLOC && n % 4 == 0
  {
    var n := (size + 3) / 4 * 4;
    if n < MINIALLOC then MINIALLOC else n
  }

  function Max(a: int, b: int): int {
    if a > b then a else b
  }

  class MemHeap {
    const poolSize: nat
    var available: int // available_size
    var maxUsed: int   // max_used_size
    var used: set<int> // headers with the used bit in magic
    var next: map<int, int>
    var prev: map<int, int>
    var nextFree: map<int, int>
    var prevFree: map<int, int>
    ghost var blocks: seq<Block>
    ghost var free: seq<int>

    ghost function Tail(): int {
      poolSize - HEADER
    }

    ghost predicate BlocksOk()
      reads this
    {
      poolSize >= 2 * HEADER && poolSize % 4 == 0 && Tiles(blocks, 0, Tail()) && Sound(blocks)
    }

    /** The rings, marks and counters fit the blocks. */
    ghost predicate Core()
      reads this
    {
      && BlocksOk() && Linked(next, prev, blocks, Tail()) && Marked(used, blocks, Tail())
      && FreeRing(nextFree, prevFree, free) && available == FreeSum(blocks)
    }

    ghost predicate Valid()
      reads this
    {
      Core() && NoTwoFree(blocks) && Listed(free, blocks) && poolSize - available <= maxUsed
    }

    /** rt_memheap_init on a pool that has room for two headers. */
    constructor (size: nat)
      requires size >= 2 * HEADER
      ensures Valid() && poolSize == size / 4 * 4 && Live(blocks) == {} && available == poolSize - 2 * HEADER
      ensures maxUsed == poolSize - available
    {
      poolSize := size / 4 * 4;
      var tail: nat := size / 4 * 4 - HEADER;
      var avail := size / 4 * 4 - 2 * HEADER;
      available := avail;
      maxUsed := 2 * HEADER;
      used := {tail};
      next, prev := map[0 := tail, tail := 0], map[0 := tail, tail := 0];
      nextFree, prevFree := map[LIST := 0, 0 := LIST], map[LIST := 0, 0 := LIST];
      blocks, free := [Block(0, tail, false)], [0];
      new;
      FreeSumOf(Block(0, tail, false), Block(0, tail, false));
      assert blocks[1..] == [];
      assert [LIST] + free == [LIST, 0];
      forall x ensures FreeAt(blocks, x) <==> x == 0 { FreeAtOf(x, blocks[0], blocks[0]); }
    }

    // ---------- the free list ----------

    /** Taking node `x`, element `i` of the free list, out of it. */
    method DropFree(x: int, ghost i: nat)
      requires FreeRing(nextFree, prevFree, free) && i < |free| && free[i] == x
      modifies `nextFree, `prevFree, `free
      ensures FreeRing(nextFree, prevFree, free) && free == L.RemoveAt(old(free), i)
      ensures forall y :: y in free <==> y in old(free) && y != x
    {
      ghost var c := [LIST] + free;
      assert c[i + 1] == x;
      Dropped(nextFree, prevFree, free, i, nextFree[prevFree[x] := nextFree[x]], prevFree[nextFree[x] := prevFree[x]]);
      assert nextFree[c[i + 1]] == c[L.Succ(i + 1, |c|)] && c[L.Succ(i + 1, |c|)] != c[i + 1];
      prevFree := prevFree[nextFree[x] := prevFree[x]];
      nextFree := nextFree[prevFree[x] := nextFree[x]];
      free := L.RemoveAt(free, i);
    }

    /** Putting `x` at the front of the free list. */
    method AddFree(x: int)
      requires FreeRing(nextFree, prevFree, free) && x !in free && x != LIST
      modifies `nextFree, `prevFree, `free
      ensures FreeRing(nextFree, prevFree, free) && free == [x] + old(free)
      ensures forall y :: y in free <==> y in old(free) || y == x
    {
      ghost var c := [LIST] + free;
      assert c[0] == LIST;
      Added(nextFree, prevFree, free, x, nextFree[x := nextFree[LIST]][LIST := x],
        prevFree[x := LIST][nextFree[LIST] := x]);
      nextFree := nextFree[x := nextFree[LIST]];
      prevFree := prevFree[x := LIST];
      prevFree := prevFree[nextFree[LIST] := x];
      nextFree := nextFree[LIST := x];
      free := [x] + free;
    }

    /** The search of rt_memheap_alloc: the first block of the free list with room for `size` bytes. */
    method Search(size: nat) returns (header: int, freeSize: int, ghost i: nat)
      requires Valid() && size > 0
      ensures freeSize >= size ==>
        i < |free| && free[i] == header && header in next && freeSize == next[header] - header - HEADER
      ensures freeSize < size ==> forall b :: b in blocks && !b.used ==> Payload(b) < size
    {
      ghost var c := [LIST] + free;
      assert c[0] == LIST && nextFree[c[0]] == c[L.Succ(0, |c|)];
      header, freeSize, i := nextFree[LIST], 0, 0;
      while header != LIST && freeSize < size
        invariant i <= |free| && header == (if i < |free| then free[i] else LIST)
        invariant freeSize < size ==> forall j :: 0 <= j < i ==>
          free[j] in next && next[free[j]] - free[j] - HEADER < size
        invariant freeSize >= size ==> i < |free| && header in next && freeSize == next[header] - header - HEADER
        decreases |free| - i, size - freeSize
      {
        assert header in free;
        InNext(header);
        freeSize := next[header] - header - HEADER;
        if freeSize < size {
          assert c[i + 1] == header && nextFree[c[i + 1]] == c[L.Succ(i + 1, |c|)];
          header := nextFree[header];
          i := i + 1;
        }
      }
      if freeSize < size {
        assert i == |free| by { NotTheHead(); }
        forall b | b in blocks && !b.used ensures Payload(b) < size { TooSmall(b, size); }
      }
    }

    lemma NotTheHead()
      requires Valid()
      ensures forall i :: 0 <= i < |free| ==> free[i] != LIST
    {
      forall i | 0 <= i < |free| ensures free[i] != LIST { InNext(free[i]); }
    }

    /** A free block that the search has passed. */
    lemma TooSmall(b: Block, size: nat)
      requires Valid() && b in blocks && !b.used
      requires forall j :: 0 <= j < |free| ==> free[j] in next && next[free[j]] - free[j] - HEADER < size
      ensures Payload(b) < size
    {
      assert FreeAt(blocks, b.off) && b.off in free;
      var j :| 0 <= j < |free| && free[j] == b.off;
      var k :| 0 <= k < |blocks| && blocks[k] == b;
      Neighbours(k);
    }

    lemma InNext(x: int)
      requires Valid() && x in free
      ensures x in next && x != LIST && exists b :: b in blocks && !b.used && b.off == x && next[x] == b.end
    {
      assert FreeAt(blocks, x);
      var b :| b in blocks && !b.used && b.off == x;
    }

    // ---------- allocation ----------

    /** rt_memheap_alloc: fails exactly when the request is not below the available bytes or no free block has
        room; otherwise one more block is live. */
    method Alloc(size: nat) returns (p: Ptr)
      requires Valid()
      modifies this
      ensures Valid()
      ensures p == Null <==> Need(size) >= old(available) || forall b :: b in old(blocks) && !b.used ==>
        Payload(b) < Need(size)
      ensures p == Null ==>
        blocks == old(blocks) && free == old(free) && available == old(available) && maxUsed == old(maxUsed)
      ensures p.At? ==> Obtained(old(blocks), p.addr, Need(size)) && maxUsed == Max(old(maxUsed), poolSize - available)
    {
      var need := Need(size);
      if need < available {
        var header, freeSize, i := Search(need);
        if freeSize >= need {
          assert header in free;
          InNext(header);
          assert FreeAt(blocks, header);
          if freeSize >= need + HEADER + MINIALLOC {
            Split(header, need, i);
          } else {
            TakeWhole(header, freeSize, need, i);
          }
          return At(header + HEADER);
        }
      }
      p := Null;
    }

    /** Nothing can be allocated: the request is not below the available bytes, or no free block has room. */
    ghost predicate NoRoom(need: nat)
      reads this
    {
      need >= available || forall b :: b in blocks && !b.used ==> Payload(b) < need
    }

    /** The block can grow into a free one behind it, and leave enough of that for a free block. */
    ghost predicate CanGrow(b: Block, need: nat)
      reads this
    {
      exists n :: n in blocks && !n.used && n.off == b.end && Payload(b) + Payload(n) > need + MINIALLOC
    }

    lemma CanGrowAt(k: nat, need: nat)
      requires Valid() && k < |blocks|
      ensures CanGrow(blocks[k], need) <==>
        k + 1 < |blocks| && !blocks[k + 1].used && Payload(blocks[k]) + Payload(blocks[k + 1]) > need + MINIALLOC
    {
      Ordered(blocks, 0, Tail());
      if k + 1 < |blocks| {
        Neighbours(k);
        assert blocks[k + 1] in blocks;
      }
      forall n | n in blocks && n.off == blocks[k].end ensures k + 1 < |blocks| && n == blocks[k + 1] {
        var j :| 0 <= j < |blocks| && blocks[j] == n;
      }
    }

    /** One block, at `addr` and with room for `need` bytes, has become live. */
    ghost predicate Obtained(before: seq<Block>, addr: int, need: nat)
      reads this
    {
      exists b: Block :: b.used && b.off + HEADER == addr && need <= Payload(b) < need + HEADER + MINIALLOC
        && b !in Live(before) && Live(blocks) == Live(before) + {b}
    }

    /** The index of an unused block. */
    lemma FreeIndex(x: int) returns (k: nat)
      requires FreeAt(blocks, x)
      ensures k < |blocks| && blocks[k].off == x && !blocks[k].used
    {
      var b :| b in blocks && !b.used && b.off == x;
      k :| k < |blocks| && blocks[k] == b;
    }

    /** The branch of rt_memheap_alloc that uses a whole free block. */
    method TakeWhole(o: int, freeSize: int, ghost need: nat, ghost i: nat)
      requires Valid() && i < |free| && free[i] == o && o in next && freeSize == next[o] - o - HEADER
      modifies this
      ensures Valid() && maxUsed == Max(old(maxUsed), poolSize - available)
      ensures need <= freeSize < need + HEADER + MINIALLOC ==> Obtained(old(blocks), o + HEADER, need)
    {
      assert FreeAt(blocks, free[i]);
      ghost var k := FreeIndex(o);
      ghost var b := Block(o, blocks[k].end, true);
      assert blocks[k] in blocks;
      WholeShape(k, b);
      WholeCounts(k, b);
      Spend(freeSize);
      DropFree(o, i);
      used := used + {o};
      blocks := Splice(blocks, k, k + 1, [b]);
      assert b.off + HEADER == o + HEADER && Payload(b) == freeSize;
    }

    lemma WholeShape(k: nat, b: Block)
      requires Valid() && k < |blocks| && !blocks[k].used && b == Block(blocks[k].off, blocks[k].end, true)
      ensures var s := Splice(blocks, k, k + 1, [b]);
        Tiles(s, 0, Tail()) && Sound(s) && NoTwoFree(s) && Linked(next, prev, s, Tail()) &&
          Marked(used + {b.off}, s, Tail())
    {
      assert blocks[k] in blocks;
      OnlyOne(blocks, Tail(), k);
      Few(b, b);
      NoTwoFreeSplice(blocks, k, k + 1, [b]);
      Exchange(blocks, Tail(), k, k + 1, [b], next, prev, used, next, prev, used + {b.off});
    }

    lemma WholeCounts(k: nat, b: Block)
      requires BlocksOk() && k < |blocks| && !blocks[k].used && b == Block(blocks[k].off, blocks[k].end, true)
      ensures var s := Splice(blocks, k, k + 1, [b]);
        && FreeSum(s) == FreeSum(blocks) - Payload(b) && b !in Live(blocks) && Live(s) == Live(blocks) + {b}
        && forall x :: FreeAt(s, x) <==> FreeAt(blocks, x) && x != b.off
    {
      var a := blocks;
      assert a[k..k + 1] == [a[k]];
      OnlyOne(a, Tail(), k);
      Few(a[k], b);
      Few(b, b);
      ExchangeCounts(a, Tail(), k, k + 1, [b]);
      LiveIn(a);
      Ordered(a, 0, Tail());
    }

    /** The branch of rt_memheap_alloc that splits a free block: the rest of it is a new free block. */
    method Split(o: int, need: nat, ghost i: nat)
      requires Valid() && i < |free| && free[i] == o && o in next && next[o] - o - HEADER >= need + HEADER + MINIALLOC
      requires need % 4 == 0
      modifies this
      ensures Valid() && maxUsed == Max(old(maxUsed), poolSize - available)
      ensures Obtained(old(blocks), o + HEADER, need)
    {
      assert FreeAt(blocks, free[i]);
      ghost var k := FreeIndex(o);
      assert blocks[k] in blocks;
      var m := o + need + HEADER;
      ghost var b, c := Block(o, m, true), Block(m, blocks[k].end, false);
      SplitShape(k, b, c);
      SplitCounts(k, b, c);
      assert m !in free;
      NewItem(o, m);
      DropFree(o, i);
      AddFree(m);
      Spend(need + HEADER);
      used := used + {o};
      blocks := Splice(blocks, k, k + 1, [b, c]);
    }

    /** A new unused item at `m` behind item `o` in the address ring. */
    method NewItem(o: int, m: int)
      requires o in next && o != m && next[o] != m
      modifies `used, `next, `prev
      ensures used == old(used) - {m} && next == old(next)[m := old(next)[o]][o := m]
      ensures prev == old(prev)[m := o][old(next)[o] := m]
    {
      used := used - {m};
      prev := prev[m := o];
      next := next[m := next[o]];
      prev := prev[next[o] := m];
      next := next[o := m];
    }

    lemma SplitShape(k: nat, b: Block, c: Block)
      requires Valid() && k < |blocks| && !blocks[k].used && b.used && !c.used && b.off == blocks[k].off
      requires c.end == blocks[k].end && b.end == c.off
      requires Payload(b) >= 0 && Payload(c) >= 0 && b.end % 4 == 0
      ensures b.off in next && next[b.off] == c.end
      ensures var s := Splice(blocks, k, k + 1, [b, c]);
        && Tiles(s, 0, Tail()) && Sound(s) && NoTwoFree(s)
        && Linked(next[b.end := c.end][b.off := b.end], prev[b.end := b.off][c.end := b.end], s, Tail())
        && Marked(used - {b.end} + {b.off}, s, Tail())
    {
      assert blocks[k] in blocks;
      OnlyOne(blocks, Tail(), k);
      Few(b, c);
      NoTwoFreeSplice(blocks, k, k + 1, [b, c]);
      Exchange(blocks, Tail(), k, k + 1, [b, c], next, prev, used, next[b.end := c.end][b.off := b.end],
               prev[b.end := b.off][c.end := b.end], used - {b.end} + {b.off});
    }

    lemma SplitCounts(k: nat, b: Block, c: Block)
      requires BlocksOk() && k < |blocks| && !blocks[k].used && b.used && !c.used && b.off == blocks[k].off
      requires c.end == blocks[k].end && b.end == c.off
      requires Payload(b) >= 0 && Payload(c) >= 0
      ensures var s := Splice(blocks, k, k + 1, [b, c]);
        && FreeSum(s) == FreeSum(blocks) - Payload(b) - HEADER && b !in Live(blocks) && Live(s) == Live(blocks) + {b}
        && !FreeAt(blocks, b.end) && forall x :: FreeAt(s, x) <==> (FreeAt(blocks, x) && x != b.off) || x == b.end
    {
      var a := blocks;
      assert a[k..k + 1] == [a[k]];
      OnlyOne(a, Tail(), k);
      Few(a[k], c);
      Few(b, c);
      ExchangeCounts(a, Tail(), k, k + 1, [b, c]);
      LiveIn(a);
      Ordered(a, 0, Tail());
    }

    // ---------- freeing ----------

    /** The block a pointer handed out belongs to. */
    ghost predicate LiveBlock(b: Block, addr: int)
      reads this
    {
      b in Live(blocks) && b.off + HEADER == addr
    }

    /** rt_memheap_free */
    method Free(p: Ptr, ghost b: Block)
      requires Valid() && (p.At? ==> LiveBlock(b, p.addr))
      modifies this
      ensures Valid() && maxUsed == old(maxUsed)
      ensures p == Null ==> blocks == old(blocks) && free == old(free)
      ensures p.At? ==> Live(blocks) == Live(old(blocks)) - {b}
    {
      if p == Null {
        return;
      }
      LiveIn(blocks);
      ghost var k :| 0 <= k < |blocks| && blocks[k] == b;
      FreeItem(p.addr - HEADER, k);
    }

    /** What the item of block `k` and its neighbours say about the blocks. */
    lemma Neighbours(k: nat)
      requires Valid() && k < |blocks|
      ensures var b := blocks[k];
        && b.off in next && next[b.off] == b.end && b.off in prev &&
          prev[b.off] == (if k > 0 then blocks[k - 1].off else Tail())
        && b.end == OffAt(blocks, k + 1, Tail()) && (b.off in used <==> b.used)
      ensures prev[blocks[k].off] !in used <==> k > 0 && !blocks[k - 1].used
      ensures blocks[k].end !in used <==> k + 1 < |blocks| && !blocks[k + 1].used
      ensures blocks[k].end in next && (k + 1 < |blocks| ==> next[blocks[k].end] == blocks[k + 1].end)
    {
      var a := blocks;
      assert a[k] in a;
      Ordered(a, 0, Tail());
      TilesCut(a, k + 1, 0, Tail());
      if k > 0 { assert a[k - 1] in a && a[k - 1].end == a[k].off; }
      if k + 1 < |a| { assert a[k + 1] in a; }
    }

    /** The rest of rt_memheap_free once the item is known. */
    method FreeItem(o: int, ghost k: nat)
      requires Valid() && k < |blocks| && blocks[k].used && blocks[k].off == o
      modifies this
      ensures Valid() && maxUsed == old(maxUsed) && Live(blocks) == Live(old(blocks)) - {old(blocks)[k]}
    {
      ghost var s := Merged(k);
      FreePlan(k);
      var header, insert, merged, n := MergeItem(o, k, s);
      PutFree(header, insert, merged, n, s);
      Settle(s);
    }

    /** The new state is complete once the fields fit the blocks `s`. */
    ghost method Settle(s: seq<Block>)
      requires poolSize >= 2 * HEADER && poolSize % 4 == 0
      requires Tiles(s, 0, Tail()) && Sound(s) && NoTwoFree(s) && Linked(next, prev, s, Tail())
      requires Marked(used, s, Tail())
      requires FreeRing(nextFree, prevFree, free) && Listed(free, s) && available == FreeSum(s)
      requires poolSize - available <= maxUsed
      modifies `blocks
      ensures Valid() && blocks == s
    {
      blocks := s;
    }

    /** The blocks with block `k` and its unused neighbours as one unused block. */
    ghost function Merged(k: nat): seq<Block>
      reads this
      requires k < |blocks|
    {
      Splice(blocks, First(k), Last(k), [Block(blocks[First(k)].off, blocks[Last(k) - 1].end, false)])
    }

    /** What the fields say about the merges of block `k`. */
    lemma MergeFacts(k: nat)
      requires Valid() && k < |blocks| && blocks[k].used
      ensures var o := blocks[k].off;
        && o in next && o in prev && prev[o] != o && next[o] == blocks[k].end != o && next[o] in next && o != LIST &&
          o !in free
        && (prev[o] !in used <==> First(k) < k) && (next[o] !in used <==> Last(k) > k + 1)
        && (First(k) < k ==> prev[o] == blocks[First(k)].off && next[o] != prev[o] && prev[o] in free)
        && (Last(k) > k + 1 ==> next[o] in free && next[next[o]] == blocks[Last(k) - 1].end)
        && (First(k) == k ==> o == blocks[First(k)].off)
    {
      Neighbours(k);
      OnlyOne(blocks, Tail(), k);
      if First(k) < k { Neighbours(k - 1); OnlyOne(blocks, Tail(), k - 1); }
      if Last(k) > k + 1 { Neighbours(k + 1); OnlyOne(blocks, Tail(), k + 1); }
      RangeSound(k);
      Ordered(blocks, 0, Tail());
    }

    /** What MergeItem will lead to. */
    lemma MergePlan(k: nat)
      requires Valid() && k < |blocks| && blocks[k].used
      ensures var o := blocks[k].off;
        && o in next && o in prev && next[o] in next && next[o] == blocks[k].end != o && prev[o] != o
        && (prev[o] !in used <==> First(k) < k) && (next[o] !in used <==> Last(k) > k + 1) &&
          (prev[o] !in used ==> next[o] != prev[o])
        && var insert, n := prev[o] in used, next[o];
           var h := if insert then o else prev[o];
           var next1, prev1 := if insert then next else next[h := n], if insert then prev else prev[n := h];
           var next2, prev2 := if n !in used then next1[h := next[n]] else next1,
             if n !in used then prev1[next[n] := h] else prev1;
           var s := Merged(k);
           Tiles(s, 0, Tail()) && Sound(s) && NoTwoFree(s) && Linked(next2, prev2, s, Tail()) &&
             Marked(used - {o}, s, Tail())
    {
      MergeFacts(k);
      GivenShape(k);
      GivenApart(k);
    }

    /** The free list and the bytes the freed block will lead to. */
    lemma FreePlan(k: nat)
      requires Valid() && k < |blocks| && blocks[k].used
      ensures FreeSum(Merged(k)) == FreeSum(blocks) + Payload(blocks[k]) +
        HEADER * (Last(k) - First(k) - 1) >= FreeSum(blocks)
      ensures Live(Merged(k)) == Live(blocks) - {blocks[k]}
      ensures blocks[k].off !in free && blocks[k].off != LIST && (Last(k) > k + 1 ==> blocks[k].end in free)
      ensures forall x :: FreeAt(Merged(k), x) <==>
        (x in free && !(Last(k) > k + 1 && x == blocks[k].end)) || (First(k) == k && x == blocks[k].off)
    {
      MergeFacts(k);
      assert blocks[k] in blocks;
      GivenCounts(k);
    }

    /** Item `o` of block `k` marked unused and merged with its neighbours in the address ring. */
    method MergeItem(o: int, ghost k: nat, ghost s: seq<Block>)
      returns (header: int, insert: bool, merged: bool, n: int)
      requires Valid() && k < |blocks| && blocks[k].used && blocks[k].off == o && s == Merged(k)
      modifies `used, `available, `next, `prev
      ensures insert == (First(k) == k) && (insert ==> header == o) && n == blocks[k].end && merged == (Last(k) > k + 1)
      ensures Tiles(s, 0, Tail()) && Sound(s) && NoTwoFree(s) && Linked(next, prev, s, Tail())
      ensures Marked(used, s, Tail())
      ensures available == old(available) + Payload(blocks[k]) + HEADER * (Last(k) - First(k) - 1)
    {
      MergePlan(k);
      used := used - {o};
      available := available + next[o] - o - HEADER;
      header, insert, merged, n := MergeFields(o);
    }

    /** Both merges of item `o` in the address ring. */
    method MergeFields(o: int) returns (header: int, insert: bool, merged: bool, n: int)
      requires o in next && o in prev && prev[o] != o && next[o] != o && next[o] in next
      requires prev[o] !in used ==> next[o] != prev[o]
      modifies `available, `next, `prev
      ensures insert == (old(prev)[o] in used) && header == (if insert then o else old(prev)[o])
      ensures n == old(next)[o] && merged == (n !in used)
      ensures var next1, prev1 := if insert then old(next) else old(next)[header := n],
        if insert then old(prev) else old(prev)[n := header];
        && next == (if merged then next1[header := old(next)[n]] else next1)
        && prev == (if merged then prev1[old(next)[n] := header] else prev1)
      ensures available == old(available) + (if insert then 0 else HEADER) + if merged then HEADER else 0
    {
      header, insert := MergeLeft(o);
      merged, n := MergeRight(header);
    }

    /** The free list with the merged item, without the one it absorbed. */
    method PutFree(header: int, insert: bool, merged: bool, n: int, ghost s: seq<Block>)
      requires FreeRing(nextFree, prevFree, free) && (merged ==> n in free)
      requires insert ==> header !in free && header != LIST
      modifies `nextFree, `prevFree, `free
      requires forall x :: FreeAt(s, x) <==> (x in free && !(merged && x == n)) || (insert && x == header)
      ensures FreeRing(nextFree, prevFree, free) && Listed(free, s)
    {
      if merged {
        DropFromList(n);
      }
      if insert {
        AddFree(header);
      }
    }

    /** Merging an item with an unused item before it; the item that remains, and whether it must still be put on
        the free list. */
    method MergeLeft(o: int) returns (header: int, insert: bool)
      requires o in next && o in prev && prev[o] != o && next[o] != o
      modifies `available, `next, `prev
      ensures insert == (old(prev)[o] in used) && header == (if insert then o else old(prev)[o])
      ensures next == if insert then old(next) else old(next)[header := old(next)[o]]
      ensures prev == if insert then old(prev) else old(prev)[old(next)[o] := header]
      ensures available == old(available) + if insert then 0 else HEADER
    {
      header, insert := o, true;
      if prev[o] !in used {
        available := available + HEADER;
        next := next[prev[o] := next[o]];
        prev := prev[next[o] := prev[o]];
        header := prev[o];
        insert := false;
      }
    }

    /** Merging an item with an unused item behind it, which is still on the free list. */
    method MergeRight(header: int) returns (merged: bool, n: int)
      requires header in next && next[header] in next && next[header] != header
      modifies `available, `next, `prev
      ensures n == old(next)[header] && merged == (n !in used)
      ensures next == if merged then old(next)[header := old(next)[n]] else old(next)
      ensures prev == if merged then old(prev)[old(next)[n] := header] else old(prev)
      ensures available == old(available) + if merged then HEADER else 0
    {
      n, merged := next[header], false;
      if n !in used {
        available := available + HEADER;
        merged := true;
        prev := prev[next[n] := header];
        next := next[header := next[n]];
      }
    }

    lemma FreePlace(x: int) returns (i: nat)
      requires x in free
      ensures i < |free| && free[i] == x
    {
      i :| i < |free| && free[i] == x;
    }

    /** The first block that merges with block `k`, and the one behind the last. */
    ghost function First(k: nat): nat
      reads this
      requires k < |blocks|
    {
      if k > 0 && !blocks[k - 1].used then k - 1 else k
    }

    ghost function Last(k: nat): nat
      reads this
      requires k < |blocks|
    {
      if k + 1 < |blocks| && !blocks[k + 1].used then k + 2 else k + 1
    }

    /** The blocks once block `k` and its unused neighbours have become one unused block. */
    lemma GivenShape(k: nat)
      requires Valid() && k < |blocks| && blocks[k].used
      ensures var lo, hi := First(k), Last(k);
        var l, o, e, r := blocks[lo].off, blocks[k].off, blocks[k].end, blocks[hi - 1].end;
        var next1, prev1 := if lo < k then next[l := e] else next, if lo < k then prev[e := l] else prev;
        var next2, prev2 := if hi > k + 1 then next1[l := r] else next1, if hi > k + 1 then prev1[r := l] else prev1;
        var s := Splice(blocks, lo, hi, [Block(l, r, false)]);
        && Tiles(s, 0, Tail()) && Sound(s) && Linked(next2, prev2, s, Tail()) && Marked(used - {o}, s, Tail())
    {
      var a, lo, hi := blocks, First(k), Last(k);
      var l, o, e, r := a[lo].off, a[k].off, a[k].end, a[hi - 1].end;
      var next1, prev1 := if lo < k then next[l := e] else next, if lo < k then prev[e := l] else prev;
      var next2, prev2 := if hi > k + 1 then next1[l := r] else next1, if hi > k + 1 then prev1[r := l] else prev1;
      Neighbours(k);
      RangeEdges(k);
      RangeSound(k);
      MergedLinks(next, prev, l, o, e, r, lo < k, hi > k + 1);
      GivenLinked(k, l, o, e, r, next2, prev2);
    }

    lemma GivenLinked(k: nat, l: int, o: int, e: int, r: int, next2: map<int, int>, prev2: map<int, int>)
      requires Valid() && k < |blocks| && blocks[k].used
      requires l == blocks[First(k)].off && o == blocks[k].off && e == blocks[k].end && r == blocks[Last(k) - 1].end
      requires l in next2 && next2[l] == r && r in prev2 && prev2[r] == l
      requires forall x :: x in next && x != l ==> x in next2 && next2[x] == next[x]
      requires forall x :: x in prev && x != e && x != r ==> x in prev2 && prev2[x] == prev[x]
      ensures l >= 0 && var s := Splice(blocks, First(k), Last(k), [Block(l, r, false)]);
        && Tiles(s, 0, Tail()) && Sound(s) && Linked(next2, prev2, s, Tail()) && Marked(used - {o}, s, Tail())
    {
      var b := Block(l, r, false);
      Few(b, b);
      RangeEdges(k);
      RangeSound(k);
      Exchange(blocks, Tail(), First(k), Last(k), [b], next, prev, used, next2, prev2, used - {o});
    }

    lemma GivenCounts(k: nat)
      requires BlocksOk() && k < |blocks| && blocks[k].used
      ensures var lo, hi := First(k), Last(k);
        var l, e, r := blocks[lo].off, blocks[k].end, blocks[hi - 1].end;
        var s := Splice(blocks, lo, hi, [Block(l, r, false)]);
        && FreeSum(s) == FreeSum(blocks) + Payload(blocks[k]) + HEADER * (hi - lo - 1)
        && Live(s) == Live(blocks) - {blocks[k]}
        && forall x :: FreeAt(s, x) <==> (FreeAt(blocks, x) && (hi > k + 1 ==> x != e)) || x == l
    {
      RangeOf(k);
      RangeSums(k);
      GivenSums(k, First(k), Last(k), Block(blocks[First(k)].off, blocks[Last(k) - 1].end, false));
    }

    lemma GivenSums(k: nat, lo: nat, hi: nat, b: Block)
      requires BlocksOk() && k < |blocks| && lo == First(k) && hi == Last(k)
      requires b == Block(blocks[lo].off, blocks[hi - 1].end, false)
      ensures var s := Splice(blocks, lo, hi, [b]);
        && FreeSum(s) == FreeSum(blocks) - FreeSum(blocks[lo..hi]) + Payload(b) &&
          Live(s) == Live(blocks) - Live(blocks[lo..hi])
        && forall x :: FreeAt(s, x) <==> if b.off <= x < b.end then x == b.off else FreeAt(blocks, x)
      ensures b.off <= blocks[k].end <= b.end && (hi > k + 1 ==> blocks[k].end < b.end)
    {
      Few(b, b);
      RangeEdges(k);
      ExchangeCounts(blocks, Tail(), lo, hi, [b]);
    }

    lemma RangeEdges(k: nat)
      requires BlocksOk() && k < |blocks|
      ensures OffAt(blocks, First(k), Tail()) == blocks[First(k)].off
      ensures OffAt(blocks, Last(k), Tail()) == blocks[Last(k) - 1].end
      ensures blocks[First(k)].off <= blocks[k].off < blocks[k].end <= blocks[Last(k) - 1].end
      ensures Last(k) > k + 1 ==> blocks[k].end < blocks[Last(k) - 1].end
    {
      OnlyOne(blocks, Tail(), k);
      if First(k) < k { OnlyOne(blocks, Tail(), k - 1); }
      if Last(k) > k + 1 { OnlyOne(blocks, Tail(), k + 1); }
    }

    lemma GivenApart(k: nat)
      requires Valid() && k < |blocks| && blocks[k].used
      ensures NoTwoFree(Splice(blocks, First(k), Last(k),
        [Block(blocks[First(k)].off, blocks[Last(k) - 1].end, false)]))
    {
      NoTwoFreeSplice(blocks, First(k), Last(k), [Block(blocks[First(k)].off, blocks[Last(k) - 1].end, false)]);
    }

    lemma RangeSound(k: nat)
      requires Valid() && k < |blocks| && blocks[k].used
      ensures var lo, hi := First(k), Last(k);
        var l, o, e, r := blocks[lo].off, blocks[k].off, blocks[k].end, blocks[hi - 1].end;
        && Sound([Block(l, r, false)]) && l <= o < e <= r && (lo == k ==> l == o) && (hi == k + 1 ==> e == r)
        && e in prev && prev[e] == o
    {
      var lo, hi := First(k), Last(k);
      Ordered(blocks, 0, Tail());
      assert blocks[lo] in blocks && blocks[k] in blocks && blocks[hi - 1] in blocks;
    }

    /** The blocks `First(k)` to `Last(k)`: only block `k` is live, and the others are free at their offsets. */
    lemma RangeOf(k: nat)
      requires BlocksOk() && k < |blocks| && blocks[k].used
      ensures var lo, hi := First(k), Last(k);
        && (forall x :: FreeAt(blocks, x) && blocks[lo].off <= x < blocks[hi - 1].end ==>
              (lo < k && x == blocks[lo].off) || (hi > k + 1 && x == blocks[k].end))
        && (lo < k ==> FreeAt(blocks, blocks[lo].off))
    {
      var a, lo, hi := blocks, First(k), Last(k);
      OnlyOne(a, Tail(), k);
      if lo < k { OnlyOne(a, Tail(), k - 1); }
      if hi > k + 1 { OnlyOne(a, Tail(), k + 1); }
    }

    lemma RangeSums(k: nat)
      requires BlocksOk() && k < |blocks| && blocks[k].used
      ensures var lo, hi := First(k), Last(k);
        && Live(blocks[lo..hi]) == {blocks[k]}
        && FreeSum(blocks[lo..hi]) + Payload(blocks[k]) + HEADER * (hi - lo - 1) ==
          blocks[hi - 1].end - blocks[lo].off - HEADER
    {
      var a, lo, hi := blocks, First(k), Last(k);
      OnlyOne(a, Tail(), k);
      if lo < k { OnlyOne(a, Tail(), k - 1); }
      if lo < k && hi > k + 1 {
        assert a[lo..hi] == [a[k - 1], a[k], a[k + 1]];
        Few3(a[k - 1], a[k], a[k + 1]);
      } else if lo < k {
        assert a[lo..hi] == [a[k - 1], a[k]];
        Few(a[k - 1], a[k]);
      } else if hi > k + 1 {
        assert a[lo..hi] == [a[k], a[k + 1]];
        Few(a[k], a[k + 1]);
      } else {
        assert a[lo..hi] == [a[k]];
        Few(a[k], a[k]);
      }
    }

    // ---------- reallocation ----------

    /** Block `b` has been exchanged for a live block at `addr` with room for `need` bytes; no other live block
        has changed. */
    ghost predicate Resized(before: seq<Block>, b: Block, addr: int, need: nat)
      reads this
    {
      exists c: Block :: c.used && c.off + HEADER == addr && need <= Payload(c) <= need + HEADER + MINIALLOC
        && c !in Live(before) - {b} && Live(blocks) == Live(before) - {b} + {c}
    }

    /** rt_memheap_realloc */
    method Realloc(p: Ptr, size: nat, ghost b: Block) returns (q: Ptr)
      requires Valid() && (p.At? ==> LiveBlock(b, p.addr))
      modifies this
      ensures Valid() && maxUsed >= old(maxUsed)
      ensures size == 0 ==> q == Null && Live(blocks) == if p.At? then Live(old(blocks)) - {b} else Live(old(blocks))
      ensures size > 0 && q == Null ==> blocks == old(blocks) && free == old(free)
      ensures size > 0 && q.At? && p == Null ==> Obtained(old(blocks), q.addr, Need(size))
      ensures size > 0 && q.At? && p.At? ==> Resized(old(blocks), b, q.addr, Need(size))
      ensures size > 0 && p == Null ==> (q == Null <==> old(NoRoom(Need(size))))
      ensures size > 0 && p.At? ==>
        (q == Null <==> Need(size) > Payload(b) && !old(CanGrow(b, Need(size))) && old(NoRoom(Need(size))))
      ensures size > 0 && p.At? && (Need(size) <= Payload(b) || old(CanGrow(b, Need(size)))) ==> q == p
    {
      if size == 0 {
        Free(p, b);
        return Null;
      }
      var need := Need(size);
      assert Need(need) == need;
      if p == Null {
        q := Alloc(need);
        return;
      }
      LiveIn(blocks);
      ghost var k :| 0 <= k < |blocks| && blocks[k] == b;
      var o := p.addr - HEADER;
      Neighbours(k);
      assert blocks[k] in blocks;
      var oldSize := next[o] - o - HEADER;
      if need > oldSize {
        CanGrowAt(k, need);
        var grown := Grow(o, need, k);
        if grown {
          return p;
        }
        q := Move(p, need, b);
        return;
      }
      if need + HEADER + MINIALLOC >= oldSize {
        assert Live(blocks) == Live(blocks) - {b} + {b};
        return p;
      }
      Shrink(o, need, k);
      q := p;
    }

    /** A new block, and the old one freed. */
    method Move(p: Ptr, need: nat, ghost b: Block) returns (q: Ptr)
      requires Valid() && p.At? && LiveBlock(b, p.addr) && Need(need) == need
      modifies this
      ensures Valid() && maxUsed >= old(maxUsed)
      ensures q == Null <==> old(NoRoom(need))
      ensures q == Null ==> blocks == old(blocks) && free == old(free)
      ensures q.At? ==> Resized(old(blocks), b, q.addr, need)
    {
      q := Alloc(need);
      if q.At? {
        ghost var c: Block :| c.used && c.off + HEADER == q.addr && need <= Payload(c) < need + HEADER + MINIALLOC
          && c !in Live(old(blocks)) && Live(blocks) == Live(old(blocks)) + {c};
        Free(p, b);
        assert Live(blocks) == Live(old(blocks)) - {b} + {c};
      }
    }

    /** Extending the block into the unused block behind it, if enough of that remains for a free block. */
    method Grow(o: int, need: nat, ghost k: nat) returns (grown: bool)
      requires Valid() && k < |blocks| && blocks[k].used && blocks[k].off == o && need > Payload(blocks[k])
      requires need % 4 == 0
      modifies this
      ensures Valid()
      ensures !grown ==>
        blocks == old(blocks) && free == old(free) && available == old(available) && maxUsed == old(maxUsed)
      ensures grown ==>
        Resized(old(blocks), old(blocks)[k], o + HEADER, need) && maxUsed == Max(old(maxUsed), poolSize - available)
      ensures grown <==> old(k + 1 < |blocks| && !blocks[k + 1].used &&
        Payload(blocks[k]) + Payload(blocks[k + 1]) > need + MINIALLOC)
    {
      Neighbours(k);
      assert blocks[k] in blocks;
      var n, oldSize := next[o], next[o] - o - HEADER;
      if n !in used {
        Neighbours(k + 1);
        assert blocks[k + 1] in blocks;
        var nextSize := next[n] - n - HEADER;
        if nextSize + oldSize > need + MINIALLOC {
          Extend(o, n, need, k);
          return true;
        }
      }
      grown := false;
    }

    /** The branch of rt_memheap_realloc that moves the boundary between the block and the unused one behind it. */
    method Extend(o: int, n: int, need: nat, ghost k: nat)
      requires Valid() && k + 1 < |blocks| && blocks[k].used && !blocks[k + 1].used && blocks[k].off == o
      requires n == blocks[k].end
      requires Payload(blocks[k]) < need < Payload(blocks[k]) + Payload(blocks[k + 1]) && need % 4 == 0
      modifies this
      ensures Valid() && maxUsed == Max(old(maxUsed), poolSize - available)
      ensures Resized(old(blocks), old(blocks)[k], o + HEADER, need)
    {
      var m := o + HEADER + need;
      ghost var s := Cut(k, m);
      assert o % 4 == 0 by { assert blocks[k] in blocks; }
      assert n == blocks[k + 1].off by { Neighbours(k); }
      ExtendPlan(k, m);
      ExtendCounts(k, m);
      Spend(need - (n - o - HEADER));
      MoveFree(o, n, m);
      Settle(s);
      assert Payload(Block(o, m, true)) == need;
    }

    /** The unused item behind item `o` moves from `n` to `m`, in both rings. */
    method MoveFree(o: int, n: int, m: int)
      requires n in next && n in prev && prev[n] == o && next[n] != n && next[n] != o && m != o && m != next[n]
      requires FreeRing(nextFree, prevFree, free) && n in free && m !in free && m != LIST
      modifies `used, `next, `prev, `nextFree, `prevFree, `free
      ensures used == old(used) - {m} && next == old(next)[o := old(next)[n]][m := old(next)[n]][o := m]
      ensures prev == old(prev)[old(next)[n] := o][m := o][old(next)[n] := m]
      ensures FreeRing(nextFree, prevFree, free) && forall x :: x in free <==> (x in old(free) && x != n) || x == m
    {
      DropFromList(n);
      MoveItem(o, n, m);
      AddFree(m);
    }

    /** What MoveItem will lead to. */
    lemma ExtendPlan(k: nat, m: int)
      requires Valid() && k + 1 < |blocks| && blocks[k].used && !blocks[k + 1].used
      requires blocks[k].end < m <= blocks[k + 1].end - HEADER && m % 4 == 0
      ensures var o, n, r := blocks[k].off, blocks[k].end, blocks[k + 1].end;
        && n in next && next[n] == r && n in prev && prev[n] == o && o < n < r
        && Tiles(Cut(k, m), 0, Tail()) && Sound(Cut(k, m)) && NoTwoFree(Cut(k, m))
        && Linked(next[o := r][m := r][o := m], prev[r := o][m := o][r := m], Cut(k, m), Tail()) &&
          Marked(used - {m}, Cut(k, m), Tail())
    {
      var o, r := blocks[k].off, blocks[k + 1].end;
      CutFacts(k);
      assert blocks[k] in blocks && blocks[k + 1] in blocks;
      ResizeApart(k, Block(o, m, true), Block(m, r, false));
      ResizeShape(k, m, next[o := r][m := r][o := m], prev[r := o][m := o][r := m]);
    }

    /** The free list and the bytes the longer block will lead to. */
    lemma ExtendCounts(k: nat, m: int)
      requires Valid() && k + 1 < |blocks| && blocks[k].used && !blocks[k + 1].used
      requires blocks[k].end < m <= blocks[k + 1].end - HEADER
      ensures var b, n, s := Block(blocks[k].off, m, true), blocks[k].end, Cut(k, m);
        && n in free && m !in free && m != LIST && FreeSum(s) == available - (m - n)
        && b !in Live(blocks) - {blocks[k]} && Live(s) == Live(blocks) - {blocks[k]} + {b}
        && forall x :: FreeAt(s, x) <==> (x in free && x != n) || x == m
    {
      RangeEdges(k);
      OnlyOne(blocks, Tail(), k);
      OnlyOne(blocks, Tail(), k + 1);
      ResizeCounts(k, m);
    }

    /** Taking bytes off the available ones, and the record of the most that was ever used. */
    method Spend(n: int)
      modifies `available, `maxUsed
      ensures available == old(available) - n && maxUsed == Max(old(maxUsed), poolSize - available)
    {
      available := available - n;
      if poolSize - available > maxUsed {
        maxUsed := poolSize - available;
      }
    }

    method DropFromList(x: int)
      requires FreeRing(nextFree, prevFree, free) && x in free
      modifies `nextFree, `prevFree, `free
      ensures FreeRing(nextFree, prevFree, free) && forall y :: y in free <==> y in old(free) && y != x
    {
      ghost var i := FreePlace(x);
      DropFree(x, i);
    }

    /** Item `n` behind item `o` leaves the address ring, and a new one at `m` takes its place. */
    method MoveItem(o: int, n: int, m: int)
      requires n in next && n in prev && prev[n] == o && next[n] != n && next[n] != o && m != o && m != next[n]
      modifies `used, `next, `prev
      ensures used == old(used) - {m} && next == old(next)[o := old(next)[n]][m := old(next)[n]][o := m]
      ensures prev == old(prev)[old(next)[n] := o][m := o][old(next)[n] := m]
    {
      prev := prev[next[n] := prev[n]];
      next := next[prev[n] := next[n]];
      NewItem(o, m);
    }

    /** The branch of rt_memheap_realloc that makes the rest of the block, and an unused block behind it, a new
        free block. */
    method Shrink(o: int, need: nat, ghost k: nat)
      requires Valid() && k < |blocks| && blocks[k].used && blocks[k].off == o
      requires need + HEADER + MINIALLOC < Payload(blocks[k]) && need % 4 == 0
      modifies this
      ensures Valid() && maxUsed == old(maxUsed)
      ensures Resized(old(blocks), old(blocks)[k], o + HEADER, need)
    {
      var m := o + need + HEADER;
      ghost var s := Cut(k, m);
      ShrinkPlan(k, m);
      var merged, f, bytes := CutItem(o, m, k, s);
      PutRest(m, merged, f, bytes, s);
      Settle(s);
      assert Payload(Block(o, m, true)) == need;
    }

    /** The blocks with live block `k` ending at `m` and the rest, up to the end of an unused block behind it, as one
        unused block. */
    ghost function Cut(k: nat, m: nat): seq<Block>
      reads this
      requires k < |blocks|
    {
      Splice(blocks, k, Last(k), [Block(blocks[k].off, m, true), Block(m, blocks[Last(k) - 1].end, false)])
    }

    /** The free list and the bytes a block shortened to end at `m` will lead to. */
    lemma ShrinkPlan(k: nat, m: int)
      requires Valid() && k < |blocks| && blocks[k].used
      requires blocks[k].off + HEADER <= m <= blocks[k].end - HEADER && m % 4 == 0
      ensures var o, f, r := blocks[k].off, blocks[k].end, blocks[Last(k) - 1].end;
        var b, s := Block(o, m, true), Cut(k, m);
        && (Last(k) > k + 1 ==> f in free) && m !in free && m != LIST
        && FreeSum(s) == available - (if Last(k) > k + 1 then r - f - HEADER else 0) + r - m - HEADER &&
          FreeSum(s) >= available
        && b !in Live(blocks) - {blocks[k]} && Live(s) == Live(blocks) - {blocks[k]} + {b}
        && forall x :: FreeAt(s, x) <==> (x in free && !(Last(k) > k + 1 && x == f)) || x == m
    {
      RangeEdges(k);
      if Last(k) > k + 1 {
        OnlyOne(blocks, Tail(), k);
        OnlyOne(blocks, Tail(), k + 1);
      }
      ResizeCounts(k, m);
    }

    lemma CutFacts(k: nat)
      requires Valid() && k < |blocks| && blocks[k].used
      ensures var o, f, r := blocks[k].off, blocks[k].end, blocks[Last(k) - 1].end;
        && o in next && next[o] == f && f in next && (f !in used <==> Last(k) > k + 1) && (f !in used ==> next[f] == r)
        && o < f <= r && (Last(k) == k + 1 ==> f == r)
    {
      Neighbours(k);
      RangeEdges(k);
      if Last(k) > k + 1 { Neighbours(k + 1); }
    }

    /** What CutItem will lead to. */
    lemma CutPlan(k: nat, m: int)
      requires Valid() && k < |blocks| && blocks[k].used
      requires blocks[k].off + HEADER <= m <= blocks[k].end - HEADER && m % 4 == 0
      ensures var o, f, r := blocks[k].off, blocks[k].end, blocks[Last(k) - 1].end;
        && o in next && next[o] == f && f in next && (f !in used <==> Last(k) > k + 1) && (f !in used ==> next[f] == r)
        && var next1, prev1 := next[m := f][o := m], prev[m := o][f := m];
           var next2, prev2 := if f !in used then next1[m := next[f]] else next1,
             if f !in used then prev1[next[f] := m] else prev1;
           var s := Cut(k, m);
           && next2[m] == r
           && Tiles(s, 0, Tail()) && Sound(s) && NoTwoFree(s) && Linked(next2, prev2, s, Tail()) &&
             Marked(used - {m}, s, Tail())
    {
      var r, o := blocks[Last(k) - 1].end, blocks[k].off;
      CutFacts(k);
      var next1, prev1 := next[m := next[o]][o := m], prev[m := o][next[o] := m];
      CutLinks(next, prev, o, m, blocks[k].end, r, Last(k) > k + 1);
      ResizeApart(k, Block(o, m, true), Block(m, r, false));
      ResizeShape(k, m, if Last(k) > k + 1 then next1[m := r] else next1,
        if Last(k) > k + 1 then prev1[r := m] else prev1);
    }

    /** A new item at `m` behind item `o` of block `k`, which absorbs the item `f` behind it if that is unused; the
        bytes `f` had. */
    method CutItem(o: int, m: int, ghost k: nat, ghost s: seq<Block>) returns (merged: bool, f: int, bytes: int)
      requires Valid() && k < |blocks| && blocks[k].used && blocks[k].off == o
      requires o + HEADER <= m <= blocks[k].end - HEADER && m % 4 == 0 && s == Cut(k, m)
      modifies `used, `next, `prev
      ensures f == blocks[k].end && merged == (Last(k) > k + 1)
      ensures merged ==> bytes == blocks[Last(k) - 1].end - f - HEADER
      ensures Tiles(s, 0, Tail()) && Sound(s) && NoTwoFree(s) && Linked(next, prev, s, Tail())
      ensures Marked(used, s, Tail())
      ensures m in next && next[m] == blocks[Last(k) - 1].end
    {
      CutPlan(k, m);
      NewItem(o, m);
      f, merged := next[m], false;
      bytes := next[f] - f - HEADER;
      if f !in used {
        merged := true;
        prev := prev[next[f] := m];
        next := next[m := next[f]];
      }
    }

    /** The free list and the available bytes with the new item, without the absorbed one. */
    method PutRest(m: int, merged: bool, f: int, bytes: int, ghost s: seq<Block>)
      requires FreeRing(nextFree, prevFree, free) && m !in free && m != LIST && (merged ==> f in free) && m in next
      modifies `available, `nextFree, `prevFree, `free
      requires forall x :: FreeAt(s, x) <==> (x in free && !(merged && x == f)) || x == m
      ensures FreeRing(nextFree, prevFree, free) && Listed(free, s)
      ensures available == old(available) - (if merged then bytes else 0) + next[m] - m - HEADER
    {
      if merged {
        available := available - bytes;
        DropFromList(f);
      }
      AddFree(m);
      available := available + next[m] - m - HEADER;
    }

    /** The blocks once live block `k` ends at `m` and the rest, up to the end of an unused block behind it, is one
        unused block. */
    lemma ResizeShape(k: nat, m: int, next2: map<int, int>, prev2: map<int, int>)
      requires Valid() && k < |blocks| && blocks[k].used
      requires blocks[k].off + HEADER <= m <= blocks[Last(k) - 1].end - HEADER && m % 4 == 0
      requires var o, r := blocks[k].off, blocks[Last(k) - 1].end;
        && o in next2 && next2[o] == m && m in next2 && next2[m] == r && m in prev2 && prev2[m] == o && r in prev2 &&
          prev2[r] == m
        && (forall x :: x in next && (x < o || x >= r) ==> x in next2 && next2[x] == next[x])
        && (forall x :: x in prev && (x <= o || x > r) ==> x in prev2 && prev2[x] == prev[x])
      ensures var o, r := blocks[k].off, blocks[Last(k) - 1].end;
        var s := Splice(blocks, k, Last(k), [Block(o, m, true), Block(m, r, false)]);
        && Tiles(s, 0, Tail()) && Sound(s) && Linked(next2, prev2, s, Tail()) && Marked(used - {m}, s, Tail())
    {
      var o, r := blocks[k].off, blocks[Last(k) - 1].end;
      var b, c := Block(o, m, true), Block(m, r, false);
      RangeEdges(k);
      Few(b, c);
      assert blocks[k] in blocks && blocks[Last(k) - 1] in blocks;
      assert Sound([b, c]);
      Exchange(blocks, Tail(), k, Last(k), [b, c], next, prev, used, next2, prev2, used - {m});
    }

    lemma ResizeApart(k: nat, b: Block, c: Block)
      requires Valid() && k < |blocks| && b.used && !c.used
      ensures NoTwoFree(Splice(blocks, k, Last(k), [b, c]))
    {
      NoTwoFreeSplice(blocks, k, Last(k), [b, c]);
    }

    lemma ResizeCounts(k: nat, m: int)
      requires BlocksOk() && k < |blocks| && blocks[k].used
      requires blocks[k].off + HEADER <= m <= blocks[Last(k) - 1].end - HEADER && m != blocks[k].end
      ensures var o, e, r := blocks[k].off, blocks[k].end, blocks[Last(k) - 1].end;
        var b := Block(o, m, true);
        var s := Splice(blocks, k, Last(k), [b, Block(m, r, false)]);
        && FreeSum(s) == FreeSum(blocks) - (if Last(k) > k + 1 then r - e - HEADER else 0) + r - m - HEADER
        && b !in Live(blocks) - {blocks[k]} && Live(s) == Live(blocks) - {blocks[k]} + {b}
        && !FreeAt(blocks, m)
        && forall x :: FreeAt(s, x) <==> (FreeAt(blocks, x) && (Last(k) > k + 1 ==> x != e)) || x == m
    {
      var b, c := Block(blocks[k].off, m, true), Block(m, blocks[Last(k) - 1].end, false);
      RangeEdges(k);
      Few(b, c);
      ToLast(k);
      NotLive(k, b);
      ExchangeCounts(blocks, Tail(), k, Last(k), [b, c]);
    }

    lemma NotLive(k: nat, b: Block)
      requires BlocksOk() && k < |blocks| && b.off == blocks[k].off
      ensures b !in Live(blocks) - {blocks[k]}
    {
      LiveIn(blocks);
      Ordered(blocks, 0, Tail());
    }

    /** Block `k` and the unused block behind it, if any. */
    lemma ToLast(k: nat)
      requires BlocksOk() && k < |blocks| && blocks[k].used
      ensures var o, e, r := blocks[k].off, blocks[k].end, blocks[Last(k) - 1].end;
        && Live(blocks[k..Last(k)]) == {blocks[k]}
        && FreeSum(blocks[k..Last(k)]) == (if Last(k) > k + 1 then r - e - HEADER else 0)
        && forall x :: FreeAt(blocks, x) && o <= x < r ==> Last(k) > k + 1 && x == e
    {
      var a := blocks;
      OnlyOne(a, Tail(), k);
      if Last(k) > k + 1 {
        OnlyOne(a, Tail(), k + 1);
        assert a[k..Last(k)] == [a[k], a[k + 1]];
        Few(a[k], a[k + 1]);
      } else {
        assert a[k..Last(k)] == [a[k]];
        Few(a[k], a[k]);
      }
    }
  }

  /** The fields of the two rings once the item at `o` has been merged to the left and to the right. */
  lemma MergedLinks(next: map<int, int>, prev: map<int, int>, l: int, o: int, e: int, r: int, left: bool, right: bool)
    requires o in next && next[o] == e && e in prev && prev[e] == o && (!left ==> l == o) && (!right ==> e == r)
    ensures var next1, prev1 := if left then next[l := e] else next, if left then prev[e := l] else prev;
      var next2, prev2 := if right then next1[l := r] else next1, if right then prev1[r := l] else prev1;
      && l in next2 && next2[l] == r && r in prev2 && prev2[r] == l
      && (forall x :: x in next && x != l ==> x in next2 && next2[x] == next[x])
      && (forall x :: x in prev && x != e && x != r ==> x in prev2 && prev2[x] == prev[x])
  {
  }

  /** The fields of the address ring once a new item at `m` follows the item at `o`, whose block ended at `e`. */
  lemma CutLinks(next: map<int, int>, prev: map<int, int>, o: int, m: int, e: int, r: int, right: bool)
    requires o < m && m != e && m < r && o < e <= r && (!right ==> e == r)
    ensures var next1, prev1 := next[m := e][o := m], prev[m := o][e := m];
      var next2, prev2 := if right then next1[m := r] else next1, if right then prev1[r := m] else prev1;
      && next2[o] == m && next2[m] == r && prev2[m] == o && prev2[r] == m
      && (forall x :: x in next && (x < o || x >= r) ==> x in next2 && next2[x] == next[x])
      && (forall x :: x in prev && (x <= o || x > r) ==> x in prev2 && prev2[x] == prev[x])
  {
  }
}
