/** Machine words as bit sets: `&`, `|`, `& ~`, `1 << i` and the test for 0 are intersection, union, difference,
    singleton and the test for the empty set of the one bits; and __rt_ffs finds the lowest of them. */
module Words {

  /** Bit `i` of a word by one shift. */
  predicate Bit(w: bv32, i: bv6)
    requires i < 32
  {
    (w >> i) & 1 == 1
  }

  predicate Odd(w: bv32) {
    w & 1 == 1
  }

  function Half(w: bv32): bv32 {
    w >> 1
  }

  /** Bit `i` of a word, going one bit at a time. */
  predicate BitAt(w: bv32, i: nat) {
    if i == 0 then Odd(w) else BitAt(Half(w), i - 1)
  }

  lemma {:induction false} SameBit(w: bv32, i: bv6)
    requires i < 32
    ensures BitAt(w, i as nat) <==> Bit(w, i)
    decreases i as nat
  {
    if i > 0 {
      SameBit(Half(w), i - 1);
      ShiftBit(w, i);
    }
  }

  lemma ShiftBit(w: bv32, i: bv6)
    requires 0 < i < 32
    ensures Bit(Half(w), i - 1) <==> Bit(w, i)
  {
  }

  lemma {:induction false} ZeroBit(i: nat)
    ensures !BitAt(0, i)
  {
    if i > 0 { ZeroBit(i - 1); }
  }

  /** The one bits of a word, the lowest counted as `i`. */
  ghost function BitsFrom(w: bv32, i: nat): set<nat>
    decreases w
  {
    if w == 0 || i >= 32 then {} else (if Odd(w) then {i} else {}) + BitsFrom(Half(w), i + 1)
  }

  /** The one bits of a word. */
  ghost function BitsOf(w: bv32): set<nat> {
    BitsFrom(w, 0)
  }

  lemma {:induction false} FromIn(w: bv32, i: nat, x: nat)
    ensures x in BitsFrom(w, i) <==> i <= x < 32 && BitAt(w, x - i)
    decreases w
  {
    if w == 0 {
      if i <= x { ZeroBit(x - i); }
    } else if i < 32 {
      FromIn(Half(w), i + 1, x);
    }
  }

  lemma BitIn(w: bv32, x: nat)
    ensures x in BitsOf(w) <==> x < 32 && BitAt(w, x)
  {
    FromIn(w, 0, x);
  }

  predicate IsAnd(x: bv32, v: bv32, w: bv32) {
    x == v & w
  }

  lemma HalfAnd(x: bv32, v: bv32, w: bv32)
    requires IsAnd(x, v, w)
    ensures IsAnd(Half(x), Half(v), Half(w)) && (Odd(x) <==> Odd(v) && Odd(w))
  {
  }

  lemma {:induction false} AndAt(x: bv32, v: bv32, w: bv32, i: nat)
    requires IsAnd(x, v, w)
    ensures BitAt(x, i) <==> BitAt(v, i) && BitAt(w, i)
    decreases i
  {
    HalfAnd(x, v, w);
    if i > 0 { AndAt(Half(x), Half(v), Half(w), i - 1); }
  }

  lemma AndBits(x: bv32, v: bv32, w: bv32)
    requires IsAnd(x, v, w)
    ensures BitsOf(x) == BitsOf(v) * BitsOf(w)
  {
    forall i: nat ensures i in BitsOf(x) <==> i in BitsOf(v) && i in BitsOf(w) {
      AndAt(x, v, w, i);
      BitIn(x, i);
      BitIn(v, i);
      BitIn(w, i);
    }
  }

  predicate IsOr(x: bv32, v: bv32, w: bv32) {
    x == v | w
  }

  lemma HalfOr(x: bv32, v: bv32, w: bv32)
    requires IsOr(x, v, w)
    ensures IsOr(Half(x), Half(v), Half(w)) && (Odd(x) <==> Odd(v) || Odd(w))
  {
  }

  lemma {:induction false} OrAt(x: bv32, v: bv32, w: bv32, i: nat)
    requires IsOr(x, v, w)
    ensures BitAt(x, i) <==> BitAt(v, i) || BitAt(w, i)
    decreases i
  {
    HalfOr(x, v, w);
    if i > 0 { OrAt(Half(x), Half(v), Half(w), i - 1); }
  }

  lemma OrBits(x: bv32, v: bv32, w: bv32)
    requires IsOr(x, v, w)
    ensures BitsOf(x) == BitsOf(v) + BitsOf(w)
  {
    forall i: nat ensures i in BitsOf(x) <==> i in BitsOf(v) || i in BitsOf(w) {
      OrAt(x, v, w, i);
      BitIn(x, i);
      BitIn(v, i);
      BitIn(w, i);
    }
  }

  predicate IsMinus(x: bv32, v: bv32, w: bv32) {
    x == v & !w
  }

  lemma Parts(x: bv32, v: bv32, w: bv32, y: bv32)
    requires IsMinus(x, v, w) && y == v & w
    ensures IsOr(v, x, y) && IsAnd(y, v, w) && IsAnd(0, x, w)
  {
  }

  lemma MinusBits(x: bv32, v: bv32, w: bv32)
    requires IsMinus(x, v, w)
    ensures BitsOf(x) == BitsOf(v) - BitsOf(w)
  {
    MinusParts(x, v, w, v & w);
  }

  lemma MinusParts(x: bv32, v: bv32, w: bv32, y: bv32)
    requires IsMinus(x, v, w) && y == v & w
    ensures BitsOf(x) == BitsOf(v) - BitsOf(w)
  {
    Parts(x, v, w, y);
    OrBits(v, x, y);
    AndBits(y, v, w);
    AndBits(0, x, w);
    Difference(BitsOf(v), BitsOf(w), BitsOf(x), BitsOf(y));
  }

  lemma Difference(a: set<nat>, b: set<nat>, x: set<nat>, y: set<nat>)
    requires a == x + y && y == a * b && x * b == {}
    ensures x == a - b
  {
    forall i ensures i in x <==> i in a && i !in b {
      assert i in x && i in b ==> i in x * b;
    }
  }

  /** Intersection, union and difference. */
  lemma BitsOfOps(v: bv32, w: bv32)
    ensures BitsOf(v & w) == BitsOf(v) * BitsOf(w)
    ensures BitsOf(v | w) == BitsOf(v) + BitsOf(w)
    ensures BitsOf(v & !w) == BitsOf(v) - BitsOf(w)
  {
    AndBits(v & w, v, w);
    OrBits(v | w, v, w);
    MinusBits(v & !w, v, w);
  }

  /** 1 << i */
  function Mask(i: nat): bv32 {
    if i == 0 then 1 else Mask(i - 1) << 1
  }

  lemma HalfDouble(w: bv32)
    requires !Bit(w, 31)
    ensures Half(w << 1) == w && !Odd(w << 1)
  {
  }

  lemma {:induction false} MaskAt(i: nat, j: nat)
    requires i < 32
    ensures BitAt(Mask(i), j) <==> i == j
    decreases i
  {
    if i > 0 {
      MaskAt(i - 1, 31);
      SameBit(Mask(i - 1), 31);
      HalfDouble(Mask(i - 1));
      if j > 0 { MaskAt(i - 1, j - 1); }
    } else if j > 0 {
      ZeroBit(j - 1);
      assert Half(1) == 0;
    }
  }

  lemma BitsOfMask(i: nat)
    requires i < 32
    ensures BitsOf(Mask(i)) == {i}
  {
    forall j: nat ensures j in BitsOf(Mask(i)) <==> j == i {
      BitIn(Mask(i), j);
      MaskAt(i, j);
    }
  }

  // ---------- the lowest one bit ----------

  /** A row of __lowest_bit_bitmap: only the first entries differ from row to row. */
  function Row(first: bv6): seq<bv6> {
    [first, 0, 1, 0, 2, 0, 1, 0, 3, 0, 1, 0, 2, 0, 1, 0]
  }

  const FIRSTS: seq<bv6> := [0, 4, 5, 4, 6, 4, 5, 4, 7, 4, 5, 4, 6, 4, 5, 4]

  /** __lowest_bit_bitmap */
  function LowestBit(b: bv32): bv6
    requires b < 256
  {
    Row(FIRSTS[(b >> 4) as nat])[(b & 15) as nat]
  }

  /** Bit `r` of `b` is its lowest one bit. */
  predicate Lowest(b: bv32, r: bv6) {
    r < 8 && Bit(b, r) && b & ((1 << r) - 1) == 0
  }

  lemma TableIs(b: bv32)
    requires 0 < b < 256
    ensures Lowest(b, LowestBit(b))
  {
    if b & 15 != 0 { LowNibble(b, b & 15); } else { HighNibble(b, b >> 4); }
  }

  lemma LowNibble(b: bv32, n: bv32)
    requires 0 < b < 256 && n == b & 15 && n != 0
    ensures Lowest(b, LowestBit(b))
  {
    assert n == 1 || n == 2 || n == 3 || n == 4 || n == 5 || n == 6 || n == 7 || n == 8
      || n == 9 || n == 10 || n == 11 || n == 12 || n == 13 || n == 14 || n == 15;
  }

  lemma HighNibble(b: bv32, n: bv32)
    requires 0 < b < 256 && n == b >> 4 && b & 15 == 0
    ensures Lowest(b, LowestBit(b))
  {
    assert n == 1 || n == 2 || n == 3 || n == 4 || n == 5 || n == 6 || n == 7 || n == 8
      || n == 9 || n == 10 || n == 11 || n == 12 || n == 13 || n == 14 || n == 15;
  }

  /** Bits of the byte that starts at bit `k`. */
  lemma ByteBit(w: bv32, k: bv6, j: bv6)
    requires (k == 0 || k == 8 || k == 16 || k == 24) && j < 8
    ensures Bit((w >> k) & 0xff, j) <==> Bit(w, k + j)
  {
  }

  /** What __rt_ffs returns for a word with these one bits: one more than the lowest, 0 without any. */
  ghost predicate IsFfs(bits: set<nat>, r: nat) {
    if bits == {} then r == 0 else r > 0 && r - 1 in bits && forall i :: i in bits ==> r - 1 <= i
  }

  /** All bits below bit `k` are 0, and bit `r` is the lowest of the byte there. */
  lemma FfsAt(w: bv32, k: bv6, r: bv6)
    requires (k == 0 || k == 8 || k == 16 || k == 24) && w & ((1 << k) - 1) == 0 && Lowest((w >> k) & 0xff, r)
    ensures IsFfs(BitsOf(w), r as nat + k as nat + 1)
  {
    ByteBit(w, k, r);
    SameBit(w, k + r);
    Sum(k, r);
    BitIn(w, r as nat + k as nat);
    forall i | i in BitsOf(w) ensures r as nat + k as nat <= i {
      BitIn(w, i);
      NoneBelowAt(w, k, r, i as bv6);
    }
  }

  lemma Sum(k: bv6, r: bv6)
    requires (k == 0 || k == 8 || k == 16 || k == 24) && r < 8
    ensures (k + r) as nat == r as nat + k as nat
  {
  }

  lemma NoneBelowAt(w: bv32, k: bv6, r: bv6, i: bv6)
    requires (k == 0 || k == 8 || k == 16 || k == 24) && w & ((1 << k) - 1) == 0 && Lowest((w >> k) & 0xff, r)
    requires i < 32 && BitAt(w, i as nat)
    ensures r as nat + k as nat <= i as nat
  {
    SameBit(w, i);
    NoneBelow(w, k, r, i);
    Sum(k, r);
  }

  lemma NoneBelow(w: bv32, k: bv6, r: bv6, i: bv6)
    requires (k == 0 || k == 8 || k == 16 || k == 24) && w & ((1 << k) - 1) == 0 && Lowest((w >> k) & 0xff, r)
    requires i < 32 && Bit(w, i)
    ensures k + r <= i
  {
  }

  /** The lowest byte that is not 0 tells the lowest one bit. */
  lemma FfsByte(w: bv32, k: bv6)
    requires (k == 0 || k == 8 || k == 16 || k == 24) && w & ((1 << k) - 1) == 0 && (w >> k) & 0xff != 0
    ensures IsFfs(BitsOf(w), LowestBit((w >> k) & 0xff) as nat + k as nat + 1)
  {
    TableIs((w >> k) & 0xff);
    FfsAt(w, k, LowestBit((w >> k) & 0xff));
  }

  /** The cases of __rt_ffs. */
  lemma Ffs0(w: bv32)
    requires w & 0xff != 0
    ensures IsFfs(BitsOf(w), LowestBit(w & 0xff) as nat + 1)
  {
    assert w & 0xff == (w >> 0) & 0xff;
    FfsByte(w, 0);
  }

  lemma Ffs1(w: bv32)
    requires w & 0xff == 0 && w & 0xff00 != 0
    ensures (w & 0xff00) >> 8 < 256 && IsFfs(BitsOf(w), LowestBit((w & 0xff00) >> 8) as nat + 9)
  {
    assert (w & 0xff00) >> 8 == (w >> 8) & 0xff;
    FfsByte(w, 8);
  }

  lemma Ffs2(w: bv32)
    requires w & 0xff == 0 && w & 0xff00 == 0 && w & 0xff0000 != 0
    ensures (w & 0xff0000) >> 16 < 256 && IsFfs(BitsOf(w), LowestBit((w & 0xff0000) >> 16) as nat + 17)
  {
    assert (w & 0xff0000) >> 16 == (w >> 16) & 0xff;
    FfsByte(w, 16);
  }

  lemma Ffs3(w: bv32)
    requires w & 0xff == 0 && w & 0xff00 == 0 && w & 0xff0000 == 0 && w != 0
    ensures (w & 0xff000000) >> 24 < 256 && IsFfs(BitsOf(w), LowestBit((w & 0xff000000) >> 24) as nat + 25)
  {
    assert (w & 0xff000000) >> 24 == (w >> 24) & 0xff;
    FfsByte(w, 24);
  }

  /** Only 0 has no one bit. */
  lemma BitsOfZero(w: bv32)
    ensures w == 0 <==> BitsOf(w) == {}
  {
    if w != 0 {
      if w & 0xff != 0 { Ffs0(w); }
      else if w & 0xff00 != 0 { Ffs1(w); }
      else if w & 0xff0000 != 0 { Ffs2(w); }
      else { Ffs3(w); }
    }
  }

  /** __rt_ffs: byte by byte through the table. */
  method Ffs(w: bv32) returns (r: nat)
    ensures IsFfs(BitsOf(w), r)
  {
    if w == 0 {
      BitsOfZero(w);
      return 0;
    }
    if w & 0xff != 0 {
      Ffs0(w);
      return LowestBit(w & 0xff) as nat + 1;
    }
    if w & 0xff00 != 0 {
      Ffs1(w);
      return LowestBit((w & 0xff00) >> 8) as nat + 9;
    }
    if w & 0xff0000 != 0 {
      Ffs2(w);
      return LowestBit((w & 0xff0000) >> 16) as nat + 17;
    }
    Ffs3(w);
    r := LowestBit((w & 0xff000000) >> 24) as nat + 25;
  }
}
