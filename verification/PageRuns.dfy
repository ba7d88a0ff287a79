/** Runs of free pages: a sorted list of separated runs is determined by the pages it covers. */
module PageRuns {

  datatype Run = Run(start: nat, len: nat) {
    function End(): nat { start + len }
  }

  /** Non-empty runs in address order with at least one page between neighbours, from page `lo` on. */
  ghost predicate Canonical(a: seq<Run>, lo: nat) {
    a != [] ==> lo <= a[0].start && a[0].len > 0 && Canonical(a[1..], a[0].End() + 1)
  }

  /** Page `p` lies in one of the runs. */
  ghost predicate FreePage(a: seq<Run>, p: int) {
    a != [] && (a[0].start <= p < a[0].End() || FreePage(a[1..], p))
  }

  /** `n` pages from `p` on are all free. */
  ghost predicate FreeRange(a: seq<Run>, p: int, n: nat) {
    forall q :: p <= q < p + n ==> FreePage(a, q)
  }

  ghost predicate SamePages(a: seq<Run>, b: seq<Run>) {
    forall p :: FreePage(a, p) <==> FreePage(b, p)
  }

  lemma {:induction false} FreeFrom(a: seq<Run>, lo: nat, p: int)
    requires Canonical(a, lo) && FreePage(a, p)
    ensures lo <= p
  {
    if !(a[0].start <= p < a[0].End()) { FreeFrom(a[1..], a[0].End() + 1, p); }
  }

  lemma {:induction false} Weaken(a: seq<Run>, lo: nat, lo': nat)
    requires Canonical(a, lo) && lo' <= lo
    ensures Canonical(a, lo')
  {
  }

  /** The first run of a canonical list, told by its pages alone. */
  lemma HeadPages(a: seq<Run>, lo: nat, p: int)
    requires Canonical(a, lo) && a != []
    ensures p < a[0].start ==> !FreePage(a, p)
    ensures a[0].start <= p < a[0].End() ==> FreePage(a, p)
    ensures p == a[0].End() ==> !FreePage(a, p)
  {
    if FreePage(a[1..], p) { FreeFrom(a[1..], a[0].End() + 1, p); }
  }

  lemma TailPages(a: seq<Run>, lo: nat, p: int)
    requires Canonical(a, lo) && a != []
    ensures FreePage(a[1..], p) <==> FreePage(a, p) && p >= a[0].End()
  {
    if FreePage(a[1..], p) { FreeFrom(a[1..], a[0].End() + 1, p); }
  }

  /** Two canonical lists that cover the same pages are the same list. */
  lemma {:induction false} Unique(a: seq<Run>, b: seq<Run>, lo: nat)
    requires Canonical(a, lo) && Canonical(b, lo) && SamePages(a, b)
    ensures a == b
    decreases |a|
  {
    if a == [] || b == [] {
      if b != [] { HeadPages(b, lo, b[0].start); assert FreePage(b, b[0].start); }
      if a != [] { HeadPages(a, lo, a[0].start); assert FreePage(a, a[0].start); }
    } else {
      SameHead(a, b, lo);
      forall p ensures FreePage(a[1..], p) <==> FreePage(b[1..], p) {
        TailPages(a, lo, p);
        TailPages(b, lo, p);
      }
      Unique(a[1..], b[1..], a[0].End() + 1);
      assert a == [a[0]] + a[1..] && b == [b[0]] + b[1..];
    }
  }

  lemma SameHead(a: seq<Run>, b: seq<Run>, lo: nat)
    requires Canonical(a, lo) && Canonical(b, lo) && SamePages(a, b) && a != [] && b != []
    ensures a[0] == b[0]
  {
    HeadPages(a, lo, a[0].start);
    HeadPages(b, lo, b[0].start);
    HeadPages(a, lo, b[0].start);
    HeadPages(b, lo, a[0].start);
    assert a[0].start == b[0].start;
    HeadPages(a, lo, a[0].End());
    HeadPages(b, lo, b[0].End());
    HeadPages(a, lo, b[0].End());
    HeadPages(b, lo, a[0].End());
  }

  lemma {:induction false} FreeConcat(a: seq<Run>, b: seq<Run>, p: int)
    ensures FreePage(a + b, p) <==> FreePage(a, p) || FreePage(b, p)
  {
    if a == [] {
      assert a + b == b;
    } else {
      assert (a + b)[1..] == a[1..] + b;
      FreeConcat(a[1..], b, p);
    }
  }

  /** Pages where a list that goes on after `a` may start. */
  ghost function After(a: seq<Run>, lo: nat): nat {
    if a == [] then lo else After(a[1..], a[0].End() + 1)
  }

  lemma {:induction false} CanonicalConcat(a: seq<Run>, b: seq<Run>, lo: nat)
    ensures Canonical(a + b, lo) <==> Canonical(a, lo) && Canonical(b, After(a, lo))
    decreases |a|
  {
    if a == [] {
      assert a + b == b;
    } else {
      assert (a + b)[1..] == a[1..] + b;
      CanonicalConcat(a[1..], b, a[0].End() + 1);
    }
  }

  lemma {:induction false} AfterSnoc(a: seq<Run>, r: Run, lo: nat)
    ensures After(a + [r], lo) == r.End() + 1
    decreases |a|
  {
    if a == [] {
      assert [r][1..] == [];
    } else {
      assert (a + [r])[1..] == a[1..] + [r];
      AfterSnoc(a[1..], r, a[0].End() + 1);
    }
  }

  lemma {:induction false} FreeBefore(a: seq<Run>, lo: nat, p: int)
    requires Canonical(a, lo) && FreePage(a, p)
    ensures p + 1 < After(a, lo)
    decreases |a|
  {
    AfterGrows(a, lo);
    if !(a[0].start <= p < a[0].End()) { FreeBefore(a[1..], a[0].End() + 1, p); }
    else { AfterGrows(a[1..], a[0].End() + 1); }
  }

  lemma {:induction false} AfterGrows(a: seq<Run>, lo: nat)
    requires Canonical(a, lo)
    ensures lo <= After(a, lo)
    decreases |a|
  {
    if a != [] { AfterGrows(a[1..], a[0].End() + 1); }
  }

  /** `n` free pages in a row lie within one run. */
  lemma {:induction false} RangeInRun(a: seq<Run>, lo: nat, p: int, n: nat)
    requires Canonical(a, lo) && n > 0 && FreeRange(a, p, n)
    ensures exists i :: 0 <= i < |a| && a[i].start <= p && p + n <= a[i].End()
  {
    assert FreePage(a, p);
    if a[0].start <= p < a[0].End() {
      HeadPages(a, lo, a[0].End());
      assert p + n <= a[0].End();
    } else {
      HeadPages(a, lo, p);
      forall q | p <= q < p + n ensures FreePage(a[1..], q) {
        assert FreePage(a, q);
        TailPages(a, lo, q);
        TailPages(a, lo, p);
      }
      RangeInRun(a[1..], a[0].End() + 1, p, n);
      var i :| 0 <= i < |a[1..]| && a[1..][i].start <= p && p + n <= a[1..][i].End();
      assert a[i + 1] == a[1..][i];
    }
  }

  lemma {:induction false} RunFree(a: seq<Run>, i: nat, p: int)
    requires i < |a| && a[i].start <= p < a[i].End()
    ensures FreePage(a, p)
  {
    if i > 0 { RunFree(a[1..], i - 1, p); }
  }

  /** What a successful allocation of `n` pages at `b` leaves: exactly the other free pages. */
  ghost predicate Taken(a: seq<Run>, a': seq<Run>, b: nat, n: nat) {
    Canonical(a', 0) && forall p :: FreePage(a', p) <==> FreePage(a, p) && !(b <= p < b + n)
  }

  ghost predicate Given(a: seq<Run>, a': seq<Run>, b: nat, n: nat) {
    Canonical(a', 0) && forall p :: FreePage(a', p) <==> FreePage(a, p) || b <= p < b + n
  }

  /** Freeing what was just allocated restores the very same list. */
  lemma AllocFreeRestores(a: seq<Run>, a': seq<Run>, a'': seq<Run>, b: nat, n: nat)
    requires Canonical(a, 0) && FreeRange(a, b, n) && Taken(a, a', b, n) && Given(a', a'', b, n)
    ensures a'' == a
  {
    Unique(a'', a, 0);
  }

  /** Pages freed in another order give the same list. */
  lemma FreesCommute(a: seq<Run>, x: seq<Run>, xy: seq<Run>, y: seq<Run>, yx: seq<Run>, b: nat, n: nat, c: nat, m: nat)
    requires Given(a, x, b, n) && Given(x, xy, c, m) && Given(a, y, c, m) && Given(y, yx, b, n)
    ensures xy == yx
  {
    Unique(xy, yx, 0);
  }

  lemma ConsRun(r: Run, post: seq<Run>, lo: nat, p: int)
    ensures Canonical([r] + post, lo) <==> lo <= r.start && r.len > 0 && Canonical(post, r.End() + 1)
    ensures FreePage([r] + post, p) <==> r.start <= p < r.End() || FreePage(post, p)
  {
    assert ([r] + post)[1..] == post;
  }

  /** Taking `n` pages off the front of a run. */
  ghost function TakeFront(pre: seq<Run>, r: Run, post: seq<Run>, n: nat): seq<Run>
    requires n <= r.len
  {
    if n < r.len then pre + ([Run(r.start + n, r.len - n)] + post) else pre + post
  }

  lemma TakeFrontTaken(pre: seq<Run>, r: Run, post: seq<Run>, n: nat)
    requires Canonical(pre + ([r] + post), 0) && 0 < n <= r.len
    ensures Taken(pre + ([r] + post), TakeFront(pre, r, post, n), r.start, n)
    ensures FreeRange(pre + ([r] + post), r.start, n)
  {
    var rest := if n < r.len then [Run(r.start + n, r.len - n)] + post else post;
    CanonicalConcat(pre, [r] + post, 0);
    CanonicalConcat(pre, rest, 0);
    ConsRun(r, post, After(pre, 0), 0);
    ConsRun(Run(r.start + n, r.len - n), post, After(pre, 0), 0);
    Weaken(post, r.End() + 1, After(pre, 0));
    forall p ensures FreePage(pre + rest, p) <==> FreePage(pre + ([r] + post), p) && !(r.start <= p < r.start + n) {
      FreeConcat(pre, rest, p);
      FreeConcat(pre, [r] + post, p);
      ConsRun(r, post, After(pre, 0), p);
      ConsRun(Run(r.start + n, r.len - n), post, After(pre, 0), p);
      if FreePage(pre, p) { FreeBefore(pre, 0, p); }
      if FreePage(post, p) { FreeFrom(post, r.End() + 1, p); }
    }
    forall p | r.start <= p < r.start + n ensures FreePage(pre + ([r] + post), p) {
      FreeConcat(pre, [r] + post, p);
      ConsRun(r, post, 0, p);
    }
  }

  /** Runs too short for `n` pages hold no `n` free pages in a row, nor does what precedes a first fit. */
  lemma NoRangeBefore(pre: seq<Run>, rest: seq<Run>, n: nat, p: int)
    requires Canonical(pre + rest, 0) && n > 0 && forall i :: 0 <= i < |pre| ==> pre[i].len < n
    requires rest == [] || p < rest[0].start
    ensures !FreeRange(pre + rest, p, n)
  {
    if FreeRange(pre + rest, p, n) {
      var i := RangeNeeds(pre, rest, n, p);
    }
  }

  /** Where a range of free pages can be. */
  lemma RangeNeeds(pre: seq<Run>, rest: seq<Run>, n: nat, p: int) returns (i: nat)
    requires Canonical(pre + rest, 0) && n > 0 && FreeRange(pre + rest, p, n)
    ensures if i < |pre| then pre[i].len >= n else rest != [] && rest[0].start <= p
  {
    var a := pre + rest;
    RangeInRun(a, 0, p, n);
    i :| 0 <= i < |a| && a[i].start <= p && p + n <= a[i].End();
    if i < |pre| {
      assert a[i] == pre[i];
    } else {
      assert a[i] == rest[i - |pre|];
      NotBeforeFirst(pre, rest, i - |pre|, p);
    }
  }

  lemma NotBeforeFirst(pre: seq<Run>, rest: seq<Run>, j: nat, p: int)
    requires Canonical(pre + rest, 0) && j < |rest| && rest[j].start <= p < rest[j].End()
    ensures rest[0].start <= p
  {
    CanonicalConcat(pre, rest, 0);
    RunFree(rest, j, p);
    HeadPages(rest, After(pre, 0), p);
  }

  /** Adding `n` pages at `b` between `pre` and `rest`. */
  lemma InsertGiven(pre: seq<Run>, rest: seq<Run>, b: nat, n: nat)
    requires Canonical(pre + rest, 0) && n > 0 && After(pre, 0) <= b && (rest != [] ==> b + n < rest[0].start)
    ensures Given(pre + rest, pre + ([Run(b, n)] + rest), b, n)
  {
    CanonicalConcat(pre, rest, 0);
    CanonicalConcat(pre, [Run(b, n)] + rest, 0);
    ConsRun(Run(b, n), rest, After(pre, 0), 0);
    forall p ensures FreePage(pre + ([Run(b, n)] + rest), p) <==> FreePage(pre + rest, p) || b <= p < b + n {
      FreeConcat(pre, rest, p);
      FreeConcat(pre, [Run(b, n)] + rest, p);
      ConsRun(Run(b, n), rest, 0, p);
    }
  }

  /** Adding `n` pages just below the run that follows. */
  lemma GrowDownGiven(pre: seq<Run>, r: Run, post: seq<Run>, b: nat, n: nat)
    requires Canonical(pre + ([r] + post), 0) && After(pre, 0) <= b && b + n == r.start
    ensures Given(pre + ([r] + post), pre + ([Run(b, n + r.len)] + post), b, n)
  {
    CanonicalConcat(pre, [r] + post, 0);
    CanonicalConcat(pre, [Run(b, n + r.len)] + post, 0);
    ConsRun(r, post, After(pre, 0), 0);
    ConsRun(Run(b, n + r.len), post, After(pre, 0), 0);
    forall p
      ensures FreePage(pre + ([Run(b, n + r.len)] + post), p) <==> FreePage(pre + ([r] + post), p) || b <= p < b + n
    {
      FreeConcat(pre, [r] + post, p);
      FreeConcat(pre, [Run(b, n + r.len)] + post, p);
      ConsRun(r, post, 0, p);
      ConsRun(Run(b, n + r.len), post, 0, p);
    }
  }

  /** Adding `n` pages just above a run; the next run is joined when they meet. */
  ghost function GrowUp(pre: seq<Run>, r: Run, post: seq<Run>, n: nat): seq<Run> {
    if post != [] && r.End() + n == post[0].start then pre + ([Run(r.start, r.len + n + post[0].len)] + post[1..])
    else pre + ([Run(r.start, r.len + n)] + post)
  }

  lemma GrowUpGiven(pre: seq<Run>, r: Run, post: seq<Run>, n: nat)
    requires Canonical(pre + ([r] + post), 0) && n > 0 && (post != [] ==> r.End() + n <= post[0].start)
    ensures Given(pre + ([r] + post), GrowUp(pre, r, post, n), r.End(), n)
  {
    var joins := post != [] && r.End() + n == post[0].start;
    var r' := Run(r.start, r.len + n + if joins then post[0].len else 0);
    var rest := if joins then post[1..] else post;
    CanonicalConcat(pre, [r] + post, 0);
    CanonicalConcat(pre, [r'] + rest, 0);
    ConsRun(r, post, After(pre, 0), 0);
    ConsRun(r', rest, After(pre, 0), 0);
    forall p
      ensures FreePage(pre + ([r'] + rest), p) <==> FreePage(pre + ([r] + post), p) || r.End() <= p < r.End() + n
    {
      FreeConcat(pre, [r] + post, p);
      FreeConcat(pre, [r'] + rest, p);
      ConsRun(r, post, 0, p);
      ConsRun(r', rest, 0, p);
    }
  }
}
