/** Windows of a ring buffer. */
module RingMath {
  import opened Arith

  /** The `n` elements from offset `o` on, around the end. */
  ghost function Window<V>(p: seq<V>, o: nat, n: nat): (s: seq<V>)
    requires n > 0 ==> |p| > 0
    ensures |s| == n
    decreases n
  {
    if n == 0 then [] else [p[o % |p|]] + Window(p, o + 1, n - 1)
  }

  lemma {:induction false} WindowAt<V>(p: seq<V>, o: nat, n: nat, k: nat)
    requires k < n && |p| > 0
    ensures Window(p, o, n)[k] == p[(o + k) % |p|]
    decreases n
  {
    if k > 0 { WindowAt(p, o + 1, n - 1, k - 1); }
  }

  /** Offsets that differ by less than the size are different places. */
  lemma OtherPlace(o: nat, k: nat, n: nat, size: nat)
    requires k < n < size && o < size
    ensures (o + k) % size != (o + n) % size
  {
    ModOnce(o + k, size);
    ModOnce(o + n, size);
  }

  lemma ModOnce(x: nat, size: nat)
    requires 0 < size && x < 2 * size
    ensures x % size == if x < size then x else x - size
  {
  }

  lemma NextOffset(o: nat, n: nat, size: nat)
    requires n < size && o < size
    ensures var i := (o + n) % size;
      i < size && (o + n + 1) % size == if i + 1 >= size then 0 else i + 1
  {
    ModOnce(o + n, size);
    ModOnce(o + n + 1, size);
  }

  /** Writing behind the window makes it one element longer. */
  lemma WindowPut<V>(p: seq<V>, o: nat, n: nat, v: V)
    requires n < |p| && o < |p|
    ensures (o + n) % |p| < |p|
    ensures Window(p[(o + n) % |p| := v], o, n + 1) == Window(p, o, n) + [v]
  {
    var i := (o + n) % |p|;
    var q := p[i := v];
    forall k | 0 <= k <= n ensures Window(q, o, n + 1)[k] == (Window(p, o, n) + [v])[k] {
      WindowAt(q, o, n + 1, k);
      if k < n {
        WindowAt(p, o, n, k);
        OtherPlace(o, k, n, |p|);
      }
    }
  }

  lemma SkipOffset(o: nat, n: nat, size: nat)
    requires 0 < n <= size && o < size
    ensures (o + n) % size == ((if o + 1 >= size then 0 else o + 1) + (n - 1)) % size
  {
    if o + 1 >= size {
      ModOnce(o + n, size);
      ModOnce(n - 1, size);
    }
  }

  /** Reading the first element leaves the window one place on. */
  lemma WindowGet<V>(p: seq<V>, o: nat, n: nat)
    requires 0 < n <= |p| && o < |p|
    ensures var o' := if o + 1 >= |p| then 0 else o + 1;
      && Window(p, o, n) == [p[o]] + Window(p, o', n - 1)
      && (o + n) % |p| == (o' + (n - 1)) % |p|
  {
    SkipOffset(o, n, |p|);
    ModOnce(o, |p|);
    if o + 1 >= |p| { SameWindow(p, 0, n - 1); }
  }

  lemma {:induction false} SameWindow<V>(p: seq<V>, o: nat, n: nat)
    requires |p| > 0
    ensures Window(p, o + |p|, n) == Window(p, o, n)
    decreases n
  {
    if n > 0 {
      DivUnique(o + |p|, o / |p| + 1, |p|, o % |p|);
      SameWindow(p, o + 1, n - 1);
    }
  }
}
