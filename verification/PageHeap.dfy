/** The page allocator of rt-thread/src/slab.c: free runs are linked through heads kept in their
    own first pages. Pages are numbered from heap_start. */
module PageHeap {
  import opened PageRuns

  datatype Link = Null | At(page: nat)

  /** struct rt_page_head */
  datatype Head = Head(next: Link, page: nat)

  /** Following `from` through the heads of the runs `a` leads to `to`. */
  ghost predicate Seg(h: seq<Head>, from: Link, a: seq<Run>, to: Link)
    decreases |a|
  {
    if a == [] then from == to
    else
      from == At(a[0].start) && a[0].start < |h| && h[a[0].start].page == a[0].len &&
      Seg(h, h[a[0].start].next, a[1..], to)
  }

  lemma {:induction false} SegConcat(h: seq<Head>, from: Link, a: seq<Run>, mid: Link, b: seq<Run>, to: Link)
    requires Seg(h, from, a, mid) && Seg(h, mid, b, to)
    ensures Seg(h, from, a + b, to)
    decreases |a|
  {
    if a == [] {
      assert a + b == b;
    } else {
      assert (a + b)[1..] == a[1..] + b;
      SegConcat(h, h[a[0].start].next, a[1..], mid, b, to);
    }
  }

  /** The page a link points to when run `i` is next. */
  ghost function LinkOf(a: seq<Run>): Link {
    if a == [] then Null else At(a[0].start)
  }

  /** Heads outside the runs may change. */
  lemma {:induction false} SegFrame(h: seq<Head>, h': seq<Head>, from: Link, a: seq<Run>, to: Link)
    requires Seg(h, from, a, to) && |h'| == |h|
    requires forall x :: 0 <= x < |h| && Starts(a, x) ==> h'[x] == h[x]
    ensures Seg(h', from, a, to)
    decreases |a|
  {
    if a != [] {
      assert Starts(a, a[0].start);
      SegFrame(h, h', h[a[0].start].next, a[1..], to);
    }
  }

  /** A run of `a` starts at page `x`. */
  ghost predicate Starts(a: seq<Run>, x: int) {
    a != [] && (a[0].start == x || Starts(a[1..], x))
  }

  lemma {:induction false} StartsFree(a: seq<Run>, lo: nat, x: int)
    requires Canonical(a, lo) && Starts(a, x)
    ensures FreePage(a, x) && lo <= x && x + 1 < After(a, lo)
  {
    if a[0].start != x { StartsFree(a[1..], a[0].End() + 1, x); }
    FreeFromStart(a, lo);
  }

  lemma {:induction false} FreeFromStart(a: seq<Run>, lo: nat)
    requires Canonical(a, lo) && a != []
    ensures a[0].End() < After(a, lo)
  {
    AfterGrows(a[1..], a[0].End() + 1);
  }

  /** Changing only the next field of the last of the runs `a`. */
  lemma {:induction false} Retarget(h: seq<Head>, h': seq<Head>, from: Link, a: seq<Run>, r: Run, lo: nat, to: Link,
                                    to': Link)
    requires Canonical(a + [r], lo) && Seg(h, from, a + [r], to) && |h'| == |h| && r.start < |h|
    requires h'[r.start] == Head(to', r.len)
    requires forall x :: 0 <= x < |h| && Starts(a, x) ==> h'[x] == h[x]
    ensures Seg(h', from, a + [r], to')
    decreases |a|
  {
    if a == [] {
      assert a + [r] == [r] && [r][1..] == [];
    } else {
      assert (a + [r])[1..] == a[1..] + [r];
      assert Starts(a, a[0].start);
      Retarget(h, h', h[a[0].start].next, a[1..], r, a[0].End() + 1, to, to');
    }
  }

  lemma {:induction false} SegSplit(h: seq<Head>, from: Link, a: seq<Run>, r: Run, to: Link)
    requires Seg(h, from, a + [r], to)
    ensures Seg(h, from, a, At(r.start)) && r.start < |h| && h[r.start] == Head(to, r.len)
    decreases |a|
  {
    if a == [] {
      assert a + [r] == [r] && [r][1..] == [];
    } else {
      assert (a + [r])[1..] == a[1..] + [r];
      SegSplit(h, h[a[0].start].next, a[1..], r, to);
    }
  }

  /** `prev` is where the link behind the runs `pre` is kept. */
  ghost predicate PrevOf(pre: seq<Run>, prev: Link) {
    if pre == [] then prev.Null? else prev == At(pre[|pre| - 1].start)
  }

  /** Writing `*prev`: the runs before it now lead to `to'`, and so does the whole list. */
  lemma SetPrev(h: seq<Head>, h': seq<Head>, list: Link, list': Link, pre: seq<Run>, prev: Link, to: Link, to': Link,
                rest': seq<Run>)
    requires Canonical(pre, 0) && Seg(h, list, pre, to) && PrevOf(pre, prev) && |h'| == |h|
    requires if pre == [] then list' == to'
      else list' == list && prev.page < |h| && h'[prev.page] == Head(to', h[prev.page].page)
    requires forall x :: 0 <= x < |h| && Starts(pre, x) && prev != At(x) ==> h'[x] == h[x]
    requires Seg(h', to', rest', Null)
    ensures Seg(h', list', pre + rest', Null)
  {
    if pre != [] {
      var a, r := pre[..|pre| - 1], pre[|pre| - 1];
      assert pre == a + [r];
      SegSplit(h, list, a, r, to);
      CanonicalConcat(a, [r], 0);
      forall x | 0 <= x < |h| && Starts(a, x) ensures h'[x] == h[x] {
        StartsConcat(a, [r], x);
        StartsFree(a, 0, x);
      }
      Retarget(h, h', list, a, r, 0, to, to');
    }
    SegConcat(h', list', pre, to', rest', Null);
  }

  lemma {:induction false} StartsConcat(a: seq<Run>, b: seq<Run>, x: int)
    ensures Starts(a + b, x) <==> Starts(a, x) || Starts(b, x)
    decreases |a|
  {
    if a == [] {
      assert a + b == b;
    } else {
      assert (a + b)[1..] == a[1..] + b;
      StartsConcat(a[1..], b, x);
    }
  }

  class Pages {
    const head: array<Head> // one page head per page of the heap; only those of free runs mean anything
    var list: Link          // rt_page_list
    ghost var runs: seq<Run>

    ghost predicate Valid()
      reads this, head
    {
      && Canonical(runs, 0) && Seg(head[..], list, runs, Null)
      && (forall p :: FreePage(runs, p) ==> p < head.Length)
    }

    /** rt_page_init: the whole heap is freed into an empty list. */
    constructor (npages: nat)
      requires npages > 0
      ensures Valid() && fresh(head) && head.Length == npages
      ensures forall p :: FreePage(runs, p) <==> 0 <= p < npages
    {
      head := new Head[npages](_ => Head(Null, 0));
      list, runs := Null, [];
      new;
      Free(0, npages);
    }

    /** The search of rt_page_alloc. */
    method FindFit(npages: nat) returns (prev: Link, b: Link, ghost pre: seq<Run>, ghost rest: seq<Run>)
      requires Valid() && npages > 0
      ensures runs == pre + rest && Seg(head[..], list, pre, b) && Seg(head[..], b, rest, Null) && PrevOf(pre, prev)
      ensures forall i :: 0 <= i < |pre| ==> pre[i].len < npages
      ensures rest != [] ==> npages <= rest[0].len
    {
      prev := Null;
      pre, rest := [], runs;
      b := list;
      while b != Null
        invariant runs == pre + rest && Seg(head[..], list, pre, b) && Seg(head[..], b, rest, Null) && PrevOf(pre, prev)
        invariant forall i :: 0 <= i < |pre| ==> pre[i].len < npages
        decreases |rest|
      {
        if head[b.page].page >= npages {
          return;
        }
        prev := b;
        b := head[b.page].next;
        Advance(head[..], list, pre, prev, rest, b);
        pre, rest := pre + [rest[0]], rest[1..];
      }
    }

    /** `*prev = to` */
    method SetLink(prev: Link, to: Link, ghost pre: seq<Run>, ghost b: Link, ghost rest': seq<Run>)
      requires Canonical(pre + rest', 0) && Seg(head[..], list, pre, b) && PrevOf(pre, prev)
      requires Seg(head[..], to, rest', Null)
      modifies this`list, head
      ensures Seg(head[..], list, pre + rest', Null)
    {
      ghost var h, l := head[..], list;
      if prev.Null? {
        list := to;
      } else {
        PrevKnown(h, list, pre, prev, b);
        ApartRuns(pre, rest', prev.page);
        head[prev.page] := head[prev.page].(next := to);
      }
      CanonicalConcat(pre, rest', 0);
      SegFrame(h, head[..], to, rest', Null);
      SetPrev(h, head[..], l, list, pre, prev, b, to, rest');
    }

    /** rt_page_alloc: the lowest `npages` consecutive free pages, or NULL. */
    method Alloc(npages: nat) returns (b: Link)
      requires Valid()
      modifies this, head
      ensures Valid()
      ensures b == Null ==> runs == old(runs) && (npages == 0 || forall p :: !FreeRange(runs, p, npages))
      ensures b.At? ==> npages > 0 && FreeRange(old(runs), b.page, npages) && Taken(old(runs), runs, b.page, npages)
      ensures b.At? ==> forall p :: p < b.page ==> !FreeRange(old(runs), p, npages)
    {
      if npages == 0 {
        return Null;
      }
      ghost var pre: seq<Run>, rest: seq<Run>;
      var prev;
      prev, b, pre, rest := FindFit(npages);
      forall p | rest == [] || p < rest[0].start
        ensures !FreeRange(runs, p, npages)
      {
        NoRangeBefore(pre, rest, npages, p);
      }
      if b != Null {
        TakeRun(npages, prev, b, pre, rest);
      }
    }

    /** Unlinking the first `npages` pages of the run at `b`. */
    method TakeRun(npages: nat, prev: Link, b: Link, ghost pre: seq<Run>, ghost rest: seq<Run>)
      requires Valid() && runs == pre + rest && Seg(head[..], list, pre, b) && Seg(head[..], b, rest, Null)
      requires PrevOf(pre, prev)
      requires rest != [] && 0 < npages <= rest[0].len && b.At?
      modifies this, head
      ensures Valid() && b.page == rest[0].start
      ensures FreeRange(old(runs), b.page, npages) && Taken(old(runs), runs, b.page, npages)
    {
      ghost var r, post := rest[0], rest[1..];
      assert rest == [r] + post;
      TakeFrontTaken(pre, r, post, npages);
      assert FreePage(runs, r.End() - 1) by { RunEndFree(pre, r, post); }
      ghost var h, runs0 := head[..], runs;
      if head[b.page].page > npages {
        var n := b.page + npages;
        head[n] := Head(head[b.page].next, head[b.page].page - npages);
        Carved(h, head[..], list, pre, r, post, npages, b);
        SetLink(prev, At(n), pre, b, [Run(n, r.len - npages)] + post);
      } else {
        SetLink(prev, head[b.page].next, pre, b, post);
      }
      runs := TakeFront(pre, r, post, npages);
      assert forall p :: FreePage(runs, p) ==> FreePage(runs0, p);
    }

    /** rt_page_free: the freed pages join the neighbours they touch. */
    method Free(n: nat, npages: nat)
      requires Valid() && npages > 0 && n + npages <= head.Length
      requires forall p :: n <= p < n + npages ==> !FreePage(runs, p)
      modifies this, head
      ensures Valid() && Given(old(runs), runs, n, npages)
    {
      var prev, b := Null, list;
      ghost var pre: seq<Run>, rest := [], runs;
      while b != Null
        invariant runs == pre + rest && Seg(head[..], list, pre, b) && Seg(head[..], b, rest, Null) && PrevOf(pre, prev)
        invariant After(pre, 0) <= n && Valid()
        invariant runs == old(runs)
        decreases |rest|
      {
        ghost var r, post := rest[0], rest[1..];
        assert rest == [r] + post;
        Outside(pre, r, post, n, npages);
        if b.page + head[b.page].page == n {
          GrowBlock(n, npages, b, pre, r, post);
          return;
        }
        if b.page == n + npages {
          PutBefore(n, npages, prev, b, pre, r, post);
          return;
        }
        if b.page > n + npages {
          break;
        }
        prev := b;
        b := head[b.page].next;
        Advance(head[..], list, pre, prev, rest, b);
        AfterSnoc(pre, r, 0);
        pre, rest := pre + [r], post;
      }
      PutAlone(n, npages, prev, b, pre, rest);
    }

    method GrowBlock(n: nat, npages: nat, b: Link, ghost pre: seq<Run>, ghost r: Run, ghost post: seq<Run>)
      requires Valid() && runs == pre + ([r] + post) && Seg(head[..], list, pre, b)
      requires Seg(head[..], b, [r] + post, Null)
      requires npages > 0 && n + npages <= head.Length && r.End() == n && b.At?
      requires forall p :: n <= p < n + npages ==> !FreePage(runs, p)
      modifies this, head
      ensures Valid() && Given(old(runs), runs, n, npages)
    {
      ghost var h, runs0 := head[..], runs;
      NextStart(pre, r, post, n, npages);
      GrowUpGiven(pre, r, post, npages);
      assert ([r] + post)[1..] == post;
      head[b.page] := head[b.page].(page := head[b.page].page + npages);
      var next := head[b.page].next;
      if next != Null && b.page + head[b.page].page == next.page {
        head[b.page] := head[b.page].(page := head[b.page].page + head[next.page].page);
        head[b.page] := head[b.page].(next := head[next.page].next);
      }
      Grown(h, head[..], list, pre, r, post, npages, b);
      runs := GrowUp(pre, r, post, npages);
    }

    method PutBefore(n: nat, npages: nat, prev: Link, b: Link, ghost pre: seq<Run>, ghost r: Run, ghost post: seq<Run>)
      requires Valid() && runs == pre + ([r] + post) && Seg(head[..], list, pre, b)
      requires Seg(head[..], b, [r] + post, Null) && PrevOf(pre, prev)
      requires npages > 0 && r.start == n + npages && b.At? && After(pre, 0) <= n
      modifies this, head
      ensures Valid() && Given(old(runs), runs, n, npages)
    {
      ghost var h := head[..];
      GrowDownGiven(pre, r, post, n, npages);
      assert ([r] + post)[1..] == post;
      head[n] := Head(head[b.page].next, head[b.page].page + npages);
      ghost var r' := Run(n, npages + r.len);
      NewHead(h, head[..], list, pre, b, r', h[b.page].next, post);
      SetLink(prev, At(n), pre, b, [r'] + post);
      runs := pre + ([r'] + post);
    }

    method PutAlone(n: nat, npages: nat, prev: Link, b: Link, ghost pre: seq<Run>, ghost rest: seq<Run>)
      requires Valid() && runs == pre + rest && Seg(head[..], list, pre, b) && Seg(head[..], b, rest, Null)
      requires PrevOf(pre, prev)
      requires npages > 0 && n + npages <= head.Length && After(pre, 0) <= n
      requires rest != [] ==> n + npages < rest[0].start
      modifies this, head
      ensures Valid() && Given(old(runs), runs, n, npages)
    {
      ghost var h := head[..];
      InsertGiven(pre, rest, n, npages);
      head[n] := Head(b, npages);
      NewHead(h, head[..], list, pre, b, Run(n, npages), b, rest);
      SetLink(prev, At(n), pre, b, [Run(n, npages)] + rest);
      runs := pre + ([Run(n, npages)] + rest);
    }
  }

  /** A run that starts outside the pages to be freed lies entirely before or behind them. */
  lemma Outside(pre: seq<Run>, r: Run, post: seq<Run>, n: nat, npages: nat)
    requires Canonical(pre + ([r] + post), 0) && npages > 0
    requires forall p :: n <= p < n + npages ==> !FreePage(pre + ([r] + post), p)
    ensures r.len > 0 && (r.End() <= n || n + npages <= r.start)
  {
    CanonicalConcat(pre, [r] + post, 0);
    ConsRun(r, post, After(pre, 0), 0);
    var p := if r.start < n then n else r.start;
    FreeConcat(pre, [r] + post, p);
    ConsRun(r, post, 0, p);
  }

  lemma NextStart(pre: seq<Run>, r: Run, post: seq<Run>, n: nat, npages: nat)
    requires Canonical(pre + ([r] + post), 0) && npages > 0 && r.End() == n
    requires forall p :: n <= p < n + npages ==> !FreePage(pre + ([r] + post), p)
    ensures post != [] ==> n + npages <= post[0].start
  {
    CanonicalConcat(pre, [r] + post, 0);
    ConsRun(r, post, After(pre, 0), 0);
    if post != [] {
      var p := post[0].start;
      HeadPages(post, r.End() + 1, p);
      FreeConcat(pre, [r] + post, p);
      ConsRun(r, post, 0, p);
    }
  }

  /** A run grown in place, with or without its successor. */
  lemma Grown(h: seq<Head>, h': seq<Head>, list: Link, pre: seq<Run>, r: Run, post: seq<Run>, n: nat, b: Link)
    requires Canonical(pre + ([r] + post), 0) && n > 0
    requires Seg(h, list, pre, b) && Seg(h, b, [r] + post, Null)
    requires |h'| == |h| && (forall x :: 0 <= x < |h| && x != r.start ==> h'[x] == h[x]) && r.start < |h|
    requires if post != [] && r.End() + n == post[0].start
             then post[0].start < |h| && h'[r.start] == Head(h[post[0].start].next, r.len + n + post[0].len)
             else h'[r.start] == Head(h[r.start].next, r.len + n)
    ensures Seg(h', list, GrowUp(pre, r, post, n), Null)
  {
    CanonicalConcat(pre, [r] + post, 0);
    ConsRun(r, post, After(pre, 0), 0);
    assert ([r] + post)[1..] == post;
    if Starts(pre, r.start) { StartsFree(pre, 0, r.start); }
    SegFrame(h, h', list, pre, b);
    if post != [] && r.End() + n == post[0].start {
      GrownTail(h, h', post[1..], r, Run(r.start, r.len + n + post[0].len), h[post[0].start].next, r.End() + 1);
      SegConcat(h', list, pre, b, [Run(r.start, r.len + n + post[0].len)] + post[1..], Null);
    } else {
      GrownTail(h, h', post, r, Run(r.start, r.len + n), h[r.start].next, r.End() + 1);
      SegConcat(h', list, pre, b, [Run(r.start, r.len + n)] + post, Null);
    }
  }

  lemma GrownTail(h: seq<Head>, h': seq<Head>, rest: seq<Run>, r: Run, r': Run, next: Link, lo: nat)
    requires Canonical(rest, lo) && r.start < lo && Seg(h, next, rest, Null) && r'.start == r.start < |h| == |h'|
    requires (forall x :: 0 <= x < |h| && x != r.start ==> h'[x] == h[x]) && h'[r.start] == Head(next, r'.len)
    ensures Seg(h', At(r.start), [r'] + rest, Null)
  {
    if Starts(rest, r.start) { StartsFree(rest, lo, r.start); }
    SegFrame(h, h', next, rest, Null);
    assert ([r'] + rest)[1..] == rest;
  }

  /** Filling in the head of a new run disturbs no link. */
  lemma NewHead(h: seq<Head>, h': seq<Head>, list: Link, pre: seq<Run>, b: Link, r: Run, next: Link, post: seq<Run>)
    requires Canonical(pre + ([r] + post), 0) && r.start < |h|
    requires Seg(h, list, pre, b) && Seg(h, next, post, Null)
    requires h' == h[r.start := Head(next, r.len)]
    ensures Seg(h', list, pre, b) && Seg(h', At(r.start), [r] + post, Null)
  {
    CanonicalConcat(pre, [r] + post, 0);
    ConsRun(r, post, After(pre, 0), 0);
    if Starts(pre, r.start) { StartsFree(pre, 0, r.start); }
    if Starts(post, r.start) { StartsFree(post, r.End() + 1, r.start); }
    SegFrame(h, h', list, pre, b);
    assert ([r] + post)[1..] == post;
    SegFrame(h, h', next, post, Null);
  }

  lemma RunEndFree(pre: seq<Run>, r: Run, post: seq<Run>)
    requires r.len > 0
    ensures FreePage(pre + ([r] + post), r.End() - 1)
  {
    FreeConcat(pre, [r] + post, r.End() - 1);
    ConsRun(r, post, 0, r.End() - 1);
  }

  lemma ApartRuns(pre: seq<Run>, rest: seq<Run>, x: int)
    requires Canonical(pre + rest, 0)
    ensures Starts(pre, x) ==> !Starts(rest, x)
  {
    CanonicalConcat(pre, rest, 0);
    if Starts(pre, x) && Starts(rest, x) {
      StartsFree(pre, 0, x);
      StartsFree(rest, After(pre, 0), x);
    }
  }

  lemma PrevKnown(h: seq<Head>, list: Link, pre: seq<Run>, prev: Link, b: Link)
    requires Seg(h, list, pre, b) && PrevOf(pre, prev) && prev.At?
    ensures prev.page < |h| && Starts(pre, prev.page)
  {
    var a, r := pre[..|pre| - 1], pre[|pre| - 1];
    assert pre == a + [r];
    SegSplit(h, list, a, r, b);
    StartsConcat(a, [r], r.start);
  }

  /** A head written in the middle of a run disturbs no link. */
  lemma Carved(h: seq<Head>, h': seq<Head>, list: Link, pre: seq<Run>, r: Run, post: seq<Run>, n: nat, b: Link)
    requires Canonical(pre + ([r] + post), 0) && 0 < n < r.len && r.End() <= |h|
    requires Seg(h, list, pre, b) && Seg(h, b, [r] + post, Null)
    requires h' == h[r.start + n := Head(h[r.start].next, r.len - n)]
    ensures Seg(h', list, pre, b) && Seg(h', At(r.start + n), [Run(r.start + n, r.len - n)] + post, Null)
  {
    var x := r.start + n;
    CanonicalConcat(pre, [r] + post, 0);
    ConsRun(r, post, After(pre, 0), 0);
    if Starts(pre, x) { StartsFree(pre, 0, x); }
    if Starts(post, x) { StartsFree(post, r.End() + 1, x); }
    SegFrame(h, h', list, pre, b);
    assert ([r] + post)[1..] == post && ([Run(x, r.len - n)] + post)[1..] == post;
    SegFrame(h, h', h[r.start].next, post, Null);
  }

  /** One step along the list. */
  lemma Advance(h: seq<Head>, list: Link, pre: seq<Run>, cur: Link, rest: seq<Run>, next: Link)
    requires Seg(h, list, pre, cur) && Seg(h, cur, rest, Null) && rest != [] && next == h[rest[0].start].next
    ensures Seg(h, list, pre + [rest[0]], next) && Seg(h, next, rest[1..], Null) && next == LinkOf(rest[1..])
    ensures PrevOf(pre + [rest[0]], cur) && pre + rest == pre + [rest[0]] + rest[1..]
  {
    assert [rest[0]][1..] == [];
    assert Seg(h, cur, [rest[0]], next);
    SegConcat(h, list, pre, cur, [rest[0]], next);
  }
}
