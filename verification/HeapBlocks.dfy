/** Block lists of a boundary-tag heap: how they tile an address range, which of their
    blocks are live, and why a list without two free neighbours is determined by its
    live blocks alone. */
module HeapBlocks {

  /** A block: header at `off`, first byte behind it `end`, and the used flag. */
  datatype Block = Block(off: nat, end: nat, used: bool)

  /** The blocks of `a` follow each other without gap or overlap from `lo` to `hi`. */
  ghost predicate Tiles(a: seq<Block>, lo: nat, hi: nat) {
    if a == [] then lo == hi
    else a[0].off == lo < a[0].end && Tiles(a[1..], a[0].end, hi)
  }

  ghost predicate NoTwoFree(a: seq<Block>) {
    forall i, j :: 0 <= i < |a| && j == i + 1 < |a| ==> a[i].used || a[j].used
  }

  ghost function Live(a: seq<Block>): set<Block> {
    if a == [] then {}
    else (if a[0].used then {a[0]} else {}) + Live(a[1..])
  }

  ghost function UsedSum(a: seq<Block>): int
  {
    if a == [] then 0
    else (if a[0].used then a[0].end - a[0].off else 0) + UsedSum(a[1..])
  }

  /** Offset of block `k`, or the end of the range behind the last one. */
  function OffAt(a: seq<Block>, k: nat, hi: nat): nat
    requires k <= |a|
  {
    if k < |a| then a[k].off else hi
  }

  /** Replace the blocks at indices `lo..hi` by `mid`. */
  function Splice(a: seq<Block>, lo: nat, hi: nat, mid: seq<Block>): seq<Block>
    requires lo <= hi <= |a|
  {
    a[..lo] + (mid + a[hi..])
  }

  lemma {:induction false} Concat(a: seq<Block>, b: seq<Block>)
    ensures UsedSum(a + b) == UsedSum(a) + UsedSum(b)
    ensures Live(a + b) == Live(a) + Live(b)
  {
    if a == [] {
      assert a + b == b;
    } else {
      assert (a + b)[1..] == a[1..] + b;
      Concat(a[1..], b);
    }
  }

  lemma {:induction false} TilesConcat(a: seq<Block>, b: seq<Block>, lo: nat, mid: nat, hi: nat)
    requires Tiles(a, lo, mid) && Tiles(b, mid, hi)
    ensures Tiles(a + b, lo, hi)
  {
    if a == [] {
      assert a + b == b;
    } else {
      assert (a + b)[1..] == a[1..] + b;
      TilesConcat(a[1..], b, a[0].end, mid, hi);
    }
  }

  lemma {:induction false} TilesCut(a: seq<Block>, k: nat, lo: nat, hi: nat)
    requires Tiles(a, lo, hi) && k <= |a|
    ensures lo + k <= OffAt(a, k, hi) <= hi
    ensures k > 0 ==> a[k - 1].end == OffAt(a, k, hi)
    ensures Tiles(a[..k], lo, OffAt(a, k, hi)) && Tiles(a[k..], OffAt(a, k, hi), hi)
  {
    if k == 0 {
      assert a[0..] == a;
      if a != [] { TilesCut(a[1..], 0, a[0].end, hi); }
    } else {
      TilesCut(a[1..], k - 1, a[0].end, hi);
      assert a[..k][1..] == a[1..][..k - 1] && a[k..] == a[1..][k - 1..];
    }
  }

  lemma {:induction false} LiveIn(a: seq<Block>)
    ensures forall b :: b in Live(a) <==> b in a && b.used
  {
    if a != [] {
      LiveIn(a[1..]);
      assert a == [a[0]] + a[1..];
    }
  }

  /** Where each block of a tiling lies, and that later blocks lie behind earlier ones. */
  lemma {:induction false} Ordered(a: seq<Block>, lo: nat, hi: nat)
    requires Tiles(a, lo, hi)
    ensures a != [] ==> a[0].off == lo && a[|a| - 1].end == hi
    ensures forall i :: 0 <= i < |a| ==> lo <= a[i].off < a[i].end <= hi
    ensures forall i, j :: 0 <= i < j < |a| ==> a[i].end <= a[j].off
    ensures forall i, j :: 0 <= i < |a| && j == i + 1 < |a| ==> a[i].end == a[j].off
  {
    if a != [] {
      Ordered(a[1..], a[0].end, hi);
      assert forall i :: 0 < i < |a| ==> a[i] == a[1..][i - 1];
      TilesCut(a, 1, lo, hi);
    }
  }

  /** Splicing in a tiling of the same range keeps a tiling. */
  lemma SpliceTiles(a: seq<Block>, lo: nat, hi: nat, mid: seq<Block>, from: nat, to: nat)
    requires lo <= hi <= |a| && Tiles(a, from, to)
    requires Tiles(mid, OffAt(a, lo, to), OffAt(a, hi, to))
    ensures Tiles(Splice(a, lo, hi, mid), from, to)
  {
    TilesCut(a, hi, from, to);
    TilesCut(a, lo, from, to);
    TilesConcat(mid, a[hi..], OffAt(a, lo, to), OffAt(a, hi, to), to);
    TilesConcat(a[..lo], mid + a[hi..], from, OffAt(a, lo, to), to);
  }

  /** Splicing changes the live blocks and their total extent only by the blocks exchanged. */
  lemma SpliceLive(a: seq<Block>, lo: nat, hi: nat, mid: seq<Block>, from: nat, to: nat)
    requires lo <= hi <= |a| && Tiles(a, from, to)
    ensures Live(a[lo..hi]) <= Live(a)
    ensures Live(Splice(a, lo, hi, mid)) == Live(a) - Live(a[lo..hi]) + Live(mid)
    ensures UsedSum(Splice(a, lo, hi, mid)) == UsedSum(a) - UsedSum(a[lo..hi]) + UsedSum(mid)
  {
    var p, m, q := a[..lo], a[lo..hi], a[hi..];
    assert a == p + (m + q);
    Concat(m, q);
    Concat(p, m + q);
    Concat(mid, q);
    Concat(p, mid + q);
    LiveDisjoint(a, lo, hi, from, to);
    SetSplice(Live(p), Live(m), Live(q), Live(mid));
  }

  lemma LiveDisjoint(a: seq<Block>, lo: nat, hi: nat, from: nat, to: nat)
    requires lo <= hi <= |a| && Tiles(a, from, to)
    ensures Live(a[lo..hi]) !! Live(a[..lo]) && Live(a[lo..hi]) !! Live(a[hi..])
  {
    Ordered(a, from, to);
    LiveIn(a[..lo]);
    LiveIn(a[lo..hi]);
    LiveIn(a[hi..]);
    assert forall i, j :: 0 <= i < j < |a| ==> a[i] != a[j];
  }

  lemma SetSplice<T>(p: set<T>, m: set<T>, q: set<T>, n: set<T>)
    requires m !! p && m !! q
    ensures p + (n + q) == p + (m + q) - m + n
  {
  }

  /** Two distinct blocks of a tiling do not overlap. */
  lemma DistinctBlocksDisjoint(a: seq<Block>, lo: nat, hi: nat, x: Block, y: Block)
    requires Tiles(a, lo, hi) && x in a && y in a && x != y
    ensures x.end <= y.off || y.end <= x.off
  {
    Ordered(a, lo, hi);
  }

  /** A free first block ends where the next live block starts, or at the end of the range. */
  lemma FreeHeadEnds(a: seq<Block>, lo: nat, hi: nat)
    requires Tiles(a, lo, hi) && NoTwoFree(a) && a != [] && !a[0].used
    ensures a[0].end == hi || exists b :: b in Live(a) && b.off == a[0].end
    ensures forall b :: b in Live(a) ==> a[0].end <= b.off
  {
    LiveIn(a);
    Ordered(a, lo, hi);
    if |a| > 1 {
      assert a[1] in Live(a) && a[1].off == a[0].end;
    }
  }

  /** A tiling without two free neighbours is the only one with its live blocks. */
  lemma {:induction false} TilingUnique(a: seq<Block>, b: seq<Block>, lo: nat, hi: nat)
    requires Tiles(a, lo, hi) && NoTwoFree(a)
    requires Tiles(b, lo, hi) && NoTwoFree(b)
    requires Live(a) == Live(b)
    ensures a == b
  {
    if a == [] || b == [] {
      Ordered(a, lo, hi);
      Ordered(b, lo, hi);
    } else {
      SameHead(a, b, lo, hi);
      TilesTail(a, lo, hi);
      TilesTail(b, lo, hi);
      TilingUnique(a[1..], b[1..], a[0].end, hi);
      assert a == [a[0]] + a[1..] && b == [b[0]] + b[1..];
    }
  }

  lemma TilesTail(a: seq<Block>, lo: nat, hi: nat)
    requires Tiles(a, lo, hi) && a != []
    ensures Live(a[1..]) == Live(a) - {a[0]}
    ensures NoTwoFree(a) ==> NoTwoFree(a[1..])
  {
    Ordered(a, lo, hi);
    LiveIn(a[1..]);
    LiveIn(a);
    assert a[0] !in a[1..];
    assert forall i :: 0 <= i < |a| - 1 ==> a[1..][i] == a[i + 1];
  }

  lemma SameHead(a: seq<Block>, b: seq<Block>, lo: nat, hi: nat)
    requires Tiles(a, lo, hi) && NoTwoFree(a) && Tiles(b, lo, hi) && NoTwoFree(b)
    requires Live(a) == Live(b) && a != [] && b != []
    ensures a[0] == b[0]
  {
    Ordered(a, lo, hi);
    Ordered(b, lo, hi);
    LiveIn(a);
    LiveIn(b);
    if !a[0].used && !b[0].used {
      FreeHeadEnds(a, lo, hi);
      FreeHeadEnds(b, lo, hi);
    } else {
      assert a[0].used ==> a[0] in Live(b);
      assert b[0].used ==> b[0] in Live(a);
    }
  }

  /** The used extent depends on the live blocks only. */
  lemma {:induction false} SumByLive(a: seq<Block>, b: seq<Block>, lo: nat, lo': nat, hi: nat)
    requires Tiles(a, lo, hi) && Tiles(b, lo', hi) && Live(a) == Live(b)
    ensures UsedSum(a) == UsedSum(b)
    decreases |a| + |b|
  {
    if a != [] && !a[0].used {
      SumByLive(a[1..], b, a[0].end, lo', hi);
    } else if b != [] && !b[0].used {
      SumByLive(a, b[1..], lo, b[0].end, hi);
    } else if a != [] && b != [] {
      LiveIn(a);
      LiveIn(b);
      Ordered(a, lo, hi);
      Ordered(b, lo', hi);
      assert a[0] in Live(b) && b[0] in Live(a);
      TilesTail(a, lo, hi);
      TilesTail(b, lo', hi);
      SumByLive(a[1..], b[1..], a[0].end, b[0].end, hi);
    } else {
      LiveIn(a);
      LiveIn(b);
    }
  }
}
