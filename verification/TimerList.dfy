/** The timer skip list of rt-thread/src/timer.c: RT_TIMER_SKIP_LIST_LEVEL circular rows, the last
    of which holds every started timer. A timer has one list node per row. */
module TimerList {
  import L = Links
  import opened StableOrder
  import opened TimerOrder
  import opened TimerSpec
  import opened TimerTheorems

  const MASK: int := 0x3 // RT_TIMER_SKIP_LIST_MASK

  datatype Owner = Head | Of(id: Id)

  /** timer_list[row] or timer->row[row] */
  datatype Node = Node(owner: Owner, row: nat)

  type Field = map<Node, Node>

  function RowRing(s: seq<Id>, r: nat): (c: seq<Node>)
    ensures |c| == |s| + 1 && c[0] == Node(Head, r)
    ensures forall i :: 0 <= i < |s| ==> c[i + 1] == Node(Of(s[i]), r)
    ensures forall x :: x in c ==> x.row == r
  {
    [Node(Head, r)] + seq(|s|, i requires 0 <= i < |s| => Node(Of(s[i]), r))
  }

  /** Row `r` holds `row`; the nodes of the other timers are linked to themselves. */
  ghost predicate RowLinked(next: Field, prev: Field, row: seq<Id>, r: nat, ids: set<Id>) {
    && L.Ring(next, prev, RowRing(row, r))
    && (forall t {:trigger L.Ring(next, prev, [Node(Of(t), r)])} :: t in ids && t !in row ==>
      L.Ring(next, prev, [Node(Of(t), r)]))
    && (forall t {:trigger Node(Of(t), r)} :: t in ids ==> Node(Of(t), r) in next && Node(Of(t), r) in prev)
  }

  /** Only nodes of row `r` were written. */
  ghost predicate OnlyRow(next: Field, prev: Field, next': Field, prev': Field, r: nat) {
    && next'.Keys == next.Keys && prev'.Keys == prev.Keys
    && (forall x :: x in next && x.row != r ==> next'[x] == next[x])
    && (forall x :: x in prev && x.row != r ==> prev'[x] == prev[x])
  }

  lemma RowFrame(next: Field, prev: Field, next': Field, prev': Field, r: nat, row: seq<Id>, q: nat, ids: set<Id>)
    requires OnlyRow(next, prev, next', prev', r) && RowLinked(next, prev, row, q, ids) && q != r
    ensures RowLinked(next', prev', row, q, ids)
  {
    L.RingAgree(next, prev, next', prev', RowRing(row, q));
    forall t | t in ids && t !in row ensures L.Ring(next', prev', [Node(Of(t), q)]) {
      L.RingAgree(next, prev, next', prev', [Node(Of(t), q)]);
    }
  }

  lemma OutsideRing(next: Field, prev: Field, next': Field, prev': Field, s: seq<Node>, r: nat)
    requires L.SameOutside(next, prev, next', prev', s) && forall x :: x in s ==> x.row == r
    ensures OnlyRow(next, prev, next', prev', r)
  {
  }

  // ---------- one row ----------

  lemma RingRemove(row: seq<Id>, r: nat, i: nat)
    requires Distinct(row) && i < |row|
    ensures L.RemoveAt(RowRing(row, r), i + 1) == RowRing(Without(row, row[i]), r)
  {
    WithoutAt(row, i);
    var w := Without(row, row[i]);
    var c := RowRing(row, r);
    var a, b := L.RemoveAt(c, i + 1), RowRing(w, r);
    assert |a| == |b|;
    forall k | 0 <= k < |a| ensures a[k] == b[k] {
      L.RemovedAt(c, i + 1, k);
      if 0 < k <= i { assert w[k - 1] == row[k - 1]; }
      if i < k { assert w[k - 1] == row[k]; }
    }
  }

  lemma RingInsert(row: seq<Id>, r: nat, p: nat, t: Id)
    requires p <= |row|
    ensures L.InsertAt(RowRing(row, r), p + 1, Node(Of(t), r)) == RowRing(L.InsertAt(row, p, t), r)
  {
    var a, b := L.InsertAt(RowRing(row, r), p + 1, Node(Of(t), r)), RowRing(L.InsertAt(row, p, t), r);
    forall k | 0 <= k < |a| ensures a[k] == b[k] {
      L.InsertedAt(RowRing(row, r), p, Node(Of(t), r), k);
    }
  }

  /** Unlinking the node of `t` in row `r`, whether or not it is linked. */
  method RemoveRow(links: L.Store<Node>, t: Id, r: nat, ghost row: seq<Id>, ghost ids: set<Id>)
    requires RowLinked(links.next, links.prev, row, r, ids) && t in ids && Distinct(row)
    modifies links
    ensures RowLinked(links.next, links.prev, Without(row, t), r, ids)
    ensures OnlyRow(old(links.next), old(links.prev), links.next, links.prev, r)
  {
    var n := Node(Of(t), r);
    ghost var c, i := RowRing(row, r), 0;
    if t in row {
      i :| 0 <= i < |row| && row[i] == t;
      i := i + 1;
    } else {
      c := [n];
    }
    links.Remove(n, c, i);
    OutsideRing(old(links.next), old(links.prev), links.next, links.prev, c, r);
    Unlinked(old(links.next), old(links.prev), links.next, links.prev, t, r, row, ids, c, i);
  }

  lemma Unlinked(next: Field, prev: Field, next': Field, prev': Field, t: Id, r: nat, row: seq<Id>, ids: set<Id>,
                 c: seq<Node>, i: nat)
    requires RowLinked(next, prev, row, r, ids) && t in ids && Distinct(row)
    requires L.SameOutside(next, prev, next', prev', c)
    requires if t in row then c == RowRing(row, r) && 0 < i <= |row| && row[i - 1] == t
      else next' == next && prev' == prev
    requires t in row ==> L.Ring(next', prev', L.RemoveAt(c, i)) && L.Ring(next', prev', [c[i]])
    ensures RowLinked(next', prev', Without(row, t), r, ids)
  {
    WithoutIn(row, t);
    if t in row {
      RingRemove(row, r, i - 1);
      forall x | x in ids && x !in Without(row, t) ensures L.Ring(next', prev', [Node(Of(x), r)]) {
        if x != t {
          L.RingFrame(next, prev, next', prev', c, [Node(Of(x), r)]);
        }
      }
    }
  }

  /** Linking the node of `t` behind node `p` of row `r`. */
  method InsertRow(links: L.Store<Node>, h: Node, t: Id, r: nat, ghost row: seq<Id>, ghost p: nat, ghost ids: set<Id>)
    requires RowLinked(links.next, links.prev, row, r, ids) && t in ids && t !in row
    requires p <= |row| && h == RowRing(row, r)[p]
    modifies links
    ensures RowLinked(links.next, links.prev, L.InsertAt(row, p, t), r, ids)
    ensures OnlyRow(old(links.next), old(links.prev), links.next, links.prev, r)
  {
    ghost var c := RowRing(row, r);
    links.InsertAfter(h, Node(Of(t), r), c, p);
    ghost var touched := c + [Node(Of(t), r)];
    OutsideRing(old(links.next), old(links.prev), links.next, links.prev, touched, r);
    Relinked(old(links.next), old(links.prev), links.next, links.prev, t, r, row, p, ids, touched);
  }

  lemma InsertedIn(row: seq<Id>, p: nat, t: Id)
    requires p <= |row|
    ensures forall x :: x in L.InsertAt(row, p, t) <==> x == t || x in row
  {
    assert row == row[..p] + row[p..];
  }

  lemma RingMember(row: seq<Id>, r: nat, x: Id)
    ensures Node(Of(x), r) in RowRing(row, r) <==> x in row
  {
    var c := RowRing(row, r);
    if x in row {
      var i :| 0 <= i < |row| && row[i] == x;
      assert c[i + 1] == Node(Of(x), r);
    }
  }

  lemma Relinked(next: Field, prev: Field, next': Field, prev': Field, t: Id, r: nat, row: seq<Id>, p: nat,
                 ids: set<Id>, touched: seq<Node>)
    requires RowLinked(next, prev, row, r, ids) && p <= |row|
    requires forall y :: y in touched ==> y == Node(Of(t), r) || y in RowRing(row, r)
    requires L.SameOutside(next, prev, next', prev', touched)
    requires L.Ring(next', prev', L.InsertAt(RowRing(row, r), p + 1, Node(Of(t), r)))
    ensures RowLinked(next', prev', L.InsertAt(row, p, t), r, ids)
  {
    RingInsert(row, r, p, t);
    InsertedIn(row, p, t);
    forall x | x in ids && x !in L.InsertAt(row, p, t) ensures L.Ring(next', prev', [Node(Of(x), r)]) {
      RingMember(row, r, x);
      L.RingFrame(next, prev, next', prev', touched, [Node(Of(x), r)]);
    }
  }

  /** Timers before position `p` are due no later than a deadline of rank `k`, the others later. */
  ghost predicate Position(row: seq<Id>, rk: map<Id, int>, k: int, p: nat) {
    && p <= |row| && (forall i :: 0 <= i < |row| ==> row[i] in rk)
    && (forall i :: 0 <= i < p ==> rk[row[i]] <= k)
    && (forall i :: p <= i < |row| ==> k < rk[row[i]])
  }

  ghost predicate NoneLater(row: seq<Id>, rk: map<Id, int>, k: int, p: nat) {
    && p <= |row| && (forall i :: 0 <= i < |row| ==> row[i] in rk)
    && (forall i :: 0 <= i < p ==> rk[row[i]] <= k)
  }

  /** The comparison of rt_timer_start: does a timer with deadline `e` come after deadline `d`? */
  method ComesAfter(e: int, d: int, ghost tick: int) returns (after: bool)
    requires IsTick(tick) && IsTick(d) && IsTick(e) && Rank(tick, d) < HALF && Rank(tick, e) < HALF
    ensures after <==> Rank(tick, d) < Rank(tick, e)
  {
    WrapCompare(tick, e, d);
    if Sub(e, d) == 0 {
      return false;
    }
    return Sub(e, d) < HALF;
  }

  /** The walk along one row in rt_timer_start: the node behind which a deadline `d` goes. */
  method FindRow(links: L.Store<Node>, timeout: map<Id, int>, d: int, r: nat, start: Node,
                 ghost row: seq<Id>, ghost p0: nat, ghost ids: set<Id>, ghost tick: int, ghost rk: map<Id, int>,
                 ghost k: int)
    returns (h: Node, ghost p: nat)
    requires RowLinked(links.next, links.prev, row, r, ids) && IsTick(tick) && IsTick(d)
    requires rk == Ranks(timeout, tick) && k == Rank(tick, d) < HALF
    requires InOrder(row, rk) && forall x :: x in timeout ==> IsTick(timeout[x])
    requires NoneLater(row, rk, k, p0) && start == RowRing(row, r)[p0]
    ensures Position(row, rk, k, p) && h == RowRing(row, r)[p]
  {
    h, p := start, p0;
    LastNode(links.next, links.prev, row, r, ids);
    while h != links.prev[Node(Head, r)]
      invariant p <= |row| && h == RowRing(row, r)[p] && NoneLater(row, rk, k, p)
      decreases |row| - p
    {
      NextNode(links.next, links.prev, row, r, ids, p);
      var x := links.next[h];
      var t := x.owner.id;
      assert t == row[p] && t in row && t in rk;
      var after := ComesAfter(timeout[t], d, tick);
      if after {
        AllLater(row, rk, k, p);
        break;
      }
      h, p := x, p + 1;
    }
  }

  lemma AllLater(row: seq<Id>, rk: map<Id, int>, k: int, p: nat)
    requires Sorted(row, rk) && NoneLater(row, rk, k, p) && p < |row| && k < rk[row[p]]
    ensures Position(row, rk, k, p)
  {
  }

  lemma LastNode(next: Field, prev: Field, row: seq<Id>, r: nat, ids: set<Id>)
    requires RowLinked(next, prev, row, r, ids)
    ensures Node(Head, r) in prev && prev[Node(Head, r)] == RowRing(row, r)[|row|]
    ensures forall i :: 0 <= i <= |row| && RowRing(row, r)[i] == RowRing(row, r)[|row|] ==> i == |row|
  {
    var c := RowRing(row, r);
    assert 0 == L.Succ(|row|, |c|) && c[|row|] in next;
  }

  lemma NextNode(next: Field, prev: Field, row: seq<Id>, r: nat, ids: set<Id>, p: nat)
    requires RowLinked(next, prev, row, r, ids) && p < |row|
    ensures RowRing(row, r)[p] in next && next[RowRing(row, r)[p]] == Node(Of(row[p]), r) == RowRing(row, r)[p + 1]
  {
    assert p + 1 == L.Succ(p, |RowRing(row, r)|);
  }

  // ---------- all rows ----------

  ghost predicate AllLinked(next: Field, prev: Field, rows: seq<seq<Id>>, ids: set<Id>) {
    forall r {:trigger RowLinked(next, prev, rows[r], r, ids)} :: 0 <= r < |rows| ==>
      RowLinked(next, prev, rows[r], r, ids)
  }

  /** Row `r` holds the timers of the last row that are in `keep[r]`, in the same order. */
  ghost predicate Layered(rows: seq<seq<Id>>, keep: seq<set<Id>>) {
    && |rows| == |keep| > 0
    && (forall r {:trigger Select(rows[|rows| - 1], keep[r])} :: 0 <= r < |rows| ==>
      rows[r] == Select(rows[|rows| - 1], keep[r]))
    && (forall r, q :: 0 <= r <= q < |rows| ==> keep[r] <= keep[q])
  }

  /** Every upper row is a subsequence of the row below it, in deadline order. */
  lemma RowsNested(rows: seq<seq<Id>>, keep: seq<set<Id>>, r: nat, rk: map<Id, int>)
    requires Layered(rows, keep) && r + 1 < |rows| && InOrder(rows[|rows| - 1], rk)
    ensures Subsequence(rows[r], rows[r + 1]) && Sorted(rows[r], rk) && Distinct(rows[r])
  {
    SelectSubsequence(rows[|rows| - 1], keep[r], keep[r + 1]);
    SelectSorted(rows[|rows| - 1], keep[r], rk);
  }

  lemma RowInOrder(rows: seq<seq<Id>>, keep: seq<set<Id>>, r: nat, rk: map<Id, int>)
    requires Layered(rows, keep) && r < |rows| && InOrder(rows[|rows| - 1], rk)
    ensures InOrder(rows[r], rk)
  {
    SelectSorted(rows[|rows| - 1], keep[r], rk);
    SelectIn(rows[|rows| - 1], keep[r]);
  }

  /** Where the walk along row `r + 1` starts: at the timer where the walk along row `r` ended. */
  lemma Descend(rows: seq<seq<Id>>, keep: seq<set<Id>>, r: nat, rk: map<Id, int>, k: int, p: nat) returns (q: nat)
    requires Layered(rows, keep) && r + 1 < |rows| && InOrder(rows[|rows| - 1], rk) && NoneLater(rows[r], rk, k, p)
    ensures NoneLater(rows[r + 1], rk, k, q)
    ensures RowRing(rows[r + 1], r + 1)[q] == Node(RowRing(rows[r], r)[p].owner, r + 1)
  {
    var a, b := rows[r], rows[r + 1];
    RowInOrder(rows, keep, r + 1, rk);
    if p == 0 {
      q := 0;
    } else {
      SelectIn(rows[|rows| - 1], keep[r]);
      SelectIn(rows[|rows| - 1], keep[r + 1]);
      assert a[p - 1] in b;
      var i :| 0 <= i < |b| && b[i] == a[p - 1];
      q := i + 1;
      assert RowRing(b, r + 1)[i + 1] == Node(Of(b[i]), r + 1);
    }
  }

  ghost function RowsWithout(rows: seq<seq<Id>>, t: Id): (r: seq<seq<Id>>)
    ensures |r| == |rows| && forall i :: 0 <= i < |r| ==> r[i] == Without(rows[i], t)
  {
    seq(|rows|, i requires 0 <= i < |rows| => Without(rows[i], t))
  }

  ghost function KeepWithout(keep: seq<set<Id>>, t: Id): (r: seq<set<Id>>)
    ensures |r| == |keep| && forall i :: 0 <= i < |r| ==> r[i] == keep[i] - {t}
  {
    seq(|keep|, i requires 0 <= i < |keep| => keep[i] - {t})
  }

  lemma LayeredWithout(rows: seq<seq<Id>>, keep: seq<set<Id>>, t: Id)
    requires Layered(rows, keep)
    ensures Layered(RowsWithout(rows, t), KeepWithout(keep, t))
  {
    forall r | 0 <= r < |rows|
      ensures RowsWithout(rows, t)[r] == Select(RowsWithout(rows, t)[|rows| - 1], KeepWithout(keep, t)[r])
    {
      WithoutSelect(rows[|rows| - 1], keep[r], t);
    }
  }

  /** Rows from `lo` on with `t` inserted in deadline order. */
  ghost function RowsWith(rows: seq<seq<Id>>, t: Id, rk: map<Id, int>, lo: nat): (r: seq<seq<Id>>)
    requires t in rk && forall i, x :: 0 <= i < |rows| && x in rows[i] ==> x in rk
    ensures |r| == |rows|
    ensures forall i :: 0 <= i < |r| ==> r[i] == if i < lo then rows[i] else StableInsert(rows[i], t, rk)
  {
    seq(|rows|, i requires 0 <= i < |rows| => if i < lo then rows[i] else StableInsert(rows[i], t, rk))
  }

  ghost function KeepWith(keep: seq<set<Id>>, t: Id, lo: nat): (r: seq<set<Id>>)
    ensures |r| == |keep| && forall i :: 0 <= i < |r| ==> r[i] == if i < lo then keep[i] else keep[i] + {t}
  {
    seq(|keep|, i requires 0 <= i < |keep| => if i < lo then keep[i] else keep[i] + {t})
  }

  lemma LayeredWith(rows: seq<seq<Id>>, keep: seq<set<Id>>, t: Id, rk: map<Id, int>, lo: nat)
    requires Layered(rows, keep) && lo < |rows| && t in rk && t !in rows[|rows| - 1] && Sorted(rows[|rows| - 1], rk)
    requires forall r :: 0 <= r < |keep| ==> t !in keep[r]
    requires forall i, x :: 0 <= i < |rows| && x in rows[i] ==> x in rk
    ensures Layered(RowsWith(rows, t, rk, lo), KeepWith(keep, t, lo))
  {
    forall r | 0 <= r < |rows|
      ensures RowsWith(rows, t, rk, lo)[r] == Select(StableInsert(rows[|rows| - 1], t, rk), KeepWith(keep, t, lo)[r])
    {
      RowWith(rows[|rows| - 1], rows[r], keep[r], t, rk, r < lo);
    }
  }

  /** One row: timer `t` enters the last row and, unless `skip`, this one. */
  lemma RowWith(last: seq<Id>, row: seq<Id>, keep: set<Id>, t: Id, rk: map<Id, int>, skip: bool)
    requires row == Select(last, keep) && t in rk && t !in last && t !in keep && Sorted(last, rk)
    requires (forall x :: x in last ==> x in rk) && forall x :: x in row ==> x in rk
    ensures (if skip then row else StableInsert(row, t, rk)) ==
      Select(StableInsert(last, t, rk), if skip then keep else keep + {t})
  {
    if skip { SelectInsertOther(last, keep, t, rk); } else { InsertSelect(last, keep, t, rk); }
  }

  /** Further rows a timer gets into when the insert counter has value `nr`. */
  function Extra(nr: nat, rest: nat): (n: nat)
    ensures n <= rest
    decreases rest
  {
    if rest > 0 && nr % (MASK + 1) == 0 then 1 + Extra(nr / (MASK + 1), rest - 1) else 0
  }

  /** The loop of _rt_timer_remove over the rows. */
  method RemoveAll(links: L.Store<Node>, levels: nat, t: Id, ghost rows: seq<seq<Id>>, ghost ids: set<Id>)
    requires |rows| == levels && AllLinked(links.next, links.prev, rows, ids) && t in ids
    requires forall r :: 0 <= r < levels ==> Distinct(rows[r])
    modifies links
    ensures AllLinked(links.next, links.prev, RowsWithout(rows, t), ids)
  {
    ghost var cur := rows;
    for i := 0 to levels
      invariant |cur| == levels && AllLinked(links.next, links.prev, cur, ids)
      invariant forall r :: 0 <= r < levels ==> cur[r] == if r < i then Without(rows[r], t) else rows[r]
    {
      ghost var next, prev := links.next, links.prev;
      RemoveRow(links, t, i, cur[i], ids);
      RowsFrame(next, prev, links.next, links.prev, i, cur, Without(cur[i], t), ids);
      cur := cur[i := Without(cur[i], t)];
    }
    assert cur == RowsWithout(rows, t);
  }

  lemma RowsFrame(next: Field, prev: Field, next': Field, prev': Field, i: nat, rows: seq<seq<Id>>, row: seq<Id>,
                  ids: set<Id>)
    requires OnlyRow(next, prev, next', prev', i) && AllLinked(next, prev, rows, ids) && i < |rows|
    requires RowLinked(next', prev', row, i, ids)
    ensures AllLinked(next', prev', rows[i := row], ids)
  {
    var rows' := rows[i := row];
    forall r | 0 <= r < |rows'| ensures RowLinked(next', prev', rows'[r], r, ids) {
      if r != i { RowFrame(next, prev, next', prev', i, rows[r], r, ids); }
    }
  }

  /** The loops that link the list heads and the nodes of a new timer to themselves. */
  method InitNodes(links: L.Store<Node>, levels: nat, owner: Owner)
    modifies links
    ensures forall r :: 0 <= r < levels ==> L.Ring(links.next, links.prev, [Node(owner, r)])
    ensures forall x :: x in old(links.next) && x.owner != owner ==>
      x in links.next && links.next[x] == old(links.next)[x]
    ensures forall x :: x in old(links.prev) && x.owner != owner ==>
      x in links.prev && links.prev[x] == old(links.prev)[x]
  {
    for i := 0 to levels
      invariant forall r :: 0 <= r < i ==> L.Ring(links.next, links.prev, [Node(owner, r)])
      invariant forall x :: x in old(links.next) && x.owner != owner ==>
        x in links.next && links.next[x] == old(links.next)[x]
      invariant forall x :: x in old(links.prev) && x.owner != owner ==>
        x in links.prev && links.prev[x] == old(links.prev)[x]
    {
      links.Init(Node(owner, i));
    }
  }

  lemma RowGrows(next: Field, prev: Field, next': Field, prev': Field, row: seq<Id>, r: nat, ids: set<Id>, t: Id)
    requires RowLinked(next, prev, row, r, ids) && t !in row && L.Ring(next', prev', [Node(Of(t), r)])
    requires forall x :: x in next && x.owner != Of(t) ==> x in next' && next'[x] == next[x]
    requires forall x :: x in prev && x.owner != Of(t) ==> x in prev' && prev'[x] == prev[x]
    ensures RowLinked(next', prev', row, r, ids + {t})
  {
    RingMember(row, r, t);
    assert [Node(Of(t), r)][0] in next' && [Node(Of(t), r)][0] in prev';
    L.RingAgree(next, prev, next', prev', RowRing(row, r));
    forall x | x in ids + {t} && x !in row ensures L.Ring(next', prev', [Node(Of(x), r)]) {
      if x != t { L.RingAgree(next, prev, next', prev', [Node(Of(x), r)]); }
    }
  }

  lemma AllGrow(next: Field, prev: Field, next': Field, prev': Field, rows: seq<seq<Id>>, keep: seq<set<Id>>,
                ids: set<Id>, t: Id)
    requires AllLinked(next, prev, rows, ids) && Layered(rows, keep) && t !in rows[|rows| - 1]
    requires forall r :: 0 <= r < |rows| ==> L.Ring(next', prev', [Node(Of(t), r)])
    requires forall x :: x in next && x.owner != Of(t) ==> x in next' && next'[x] == next[x]
    requires forall x :: x in prev && x.owner != Of(t) ==> x in prev' && prev'[x] == prev[x]
    ensures AllLinked(next', prev', rows, ids + {t})
  {
    forall r | 0 <= r < |rows| ensures RowLinked(next', prev', rows[r], r, ids + {t}) {
      SelectIn(rows[|rows| - 1], keep[r]);
      RowGrows(next, prev, next', prev', rows[r], r, ids, t);
    }
  }

  method AddNodes(links: L.Store<Node>, levels: nat, t: Id, ghost rows: seq<seq<Id>>, ghost keep: seq<set<Id>>,
                  ghost ids: set<Id>)
    requires levels == |rows| && AllLinked(links.next, links.prev, rows, ids) && Layered(rows, keep)
    requires t !in rows[|rows| - 1]
    modifies links
    ensures AllLinked(links.next, links.prev, rows, ids + {t})
  {
    ghost var next, prev := links.next, links.prev;
    InitNodes(links, levels, Of(t));
    AllGrow(next, prev, links.next, links.prev, rows, keep, ids, t);
  }

  /** Rows with `t` put at `pos[r]` in the rows from `lo` on. */
  ghost function Placed(rows: seq<seq<Id>>, pos: seq<nat>, t: Id, lo: nat): (r: seq<seq<Id>>)
    requires |pos| == |rows| && forall i :: 0 <= i < |rows| ==> pos[i] <= |rows[i]|
    ensures |r| == |rows|
    ensures forall i :: 0 <= i < |r| ==> r[i] == if i < lo then rows[i] else L.InsertAt(rows[i], pos[i], t)
  {
    seq(|rows|, i requires 0 <= i < |rows| => if i < lo then rows[i] else L.InsertAt(rows[i], pos[i], t))
  }

  lemma PlacedSorted(rows: seq<seq<Id>>, pos: seq<nat>, t: Id, lo: nat, rk: map<Id, int>)
    requires |pos| == |rows| && t in rk
    requires forall r :: 0 <= r < |rows| ==> pos[r] <= |rows[r]| && Position(rows[r], rk, rk[t], pos[r])
    ensures forall i, x :: 0 <= i < |rows| && x in rows[i] ==> x in rk
    ensures Placed(rows, pos, t, lo) == RowsWith(rows, t, rk, lo)
  {
    forall i, x | 0 <= i < |rows| && x in rows[i] ensures x in rk {
      var j :| 0 <= j < |rows[i]| && rows[i][j] == x;
      assert Position(rows[i], rk, rk[t], pos[i]);
    }
    var a, b := Placed(rows, pos, t, lo), RowsWith(rows, t, rk, lo);
    forall i | 0 <= i < |a| ensures a[i] == b[i] {
      assert Position(rows[i], rk, rk[t], pos[i]);
      InsertPosition(rows[i], t, rk, pos[i]);
    }
  }

  /** The linking part of rt_timer_start: the last row always, upper rows while the counter's low
      digits are zero. */
  method LinkRows(links: L.Store<Node>, levels: nat, heads: seq<Node>, t: Id, nr: nat,
                  ghost rows: seq<seq<Id>>, ghost pos: seq<nat>, ghost ids: set<Id>)
    returns (ghost lo: nat)
    requires |rows| == |pos| == |heads| == levels >= 1 && AllLinked(links.next, links.prev, rows, ids) && t in ids
    requires forall r :: 0 <= r < levels ==>
      t !in rows[r] && pos[r] <= |rows[r]| && heads[r] == RowRing(rows[r], r)[pos[r]]
    modifies links
    ensures lo == levels - 1 - Extra(nr, levels - 1)
    ensures AllLinked(links.next, links.prev, Placed(rows, pos, t, lo), ids)
  {
    lo := levels - 1;
    ghost var extra := Extra(nr, levels - 1);
    LinkRow(links, heads, t, levels - 1, rows, pos, ids);
    var tst: nat := nr;
    for rowLvl := 2 to levels + 1
      invariant 0 <= lo < levels && lo == levels - (rowLvl - 1)
      invariant extra == levels - 1 - lo + Extra(tst, lo)
      invariant AllLinked(links.next, links.prev, Placed(rows, pos, t, lo), ids)
    {
      OneMore(tst, lo);
      if tst % (MASK + 1) != 0 {
        break;
      }
      LinkRow(links, heads, t, levels - rowLvl, rows, pos, ids);
      tst := tst / (MASK + 1);
      lo := lo - 1;
    }
  }

  lemma OneMore(nr: nat, rest: nat)
    ensures rest > 0 && nr % (MASK + 1) == 0 ==> Extra(nr, rest) == 1 + Extra(nr / (MASK + 1), rest - 1)
    ensures rest == 0 || nr % (MASK + 1) != 0 ==> Extra(nr, rest) == 0
  {
  }

  /** One more row, upwards. */
  method LinkRow(links: L.Store<Node>, heads: seq<Node>, t: Id, r: nat, ghost rows: seq<seq<Id>>, ghost pos: seq<nat>,
                 ghost ids: set<Id>)
    requires |rows| == |pos| == |heads| && t in ids && r < |rows|
    requires forall i :: 0 <= i < |rows| ==>
      t !in rows[i] && pos[i] <= |rows[i]| && heads[i] == RowRing(rows[i], i)[pos[i]]
    requires AllLinked(links.next, links.prev, Placed(rows, pos, t, r + 1), ids)
    modifies links
    ensures AllLinked(links.next, links.prev, Placed(rows, pos, t, r), ids)
  {
    ghost var next, prev := links.next, links.prev;
    ghost var cur := Placed(rows, pos, t, r + 1);
    assert cur[r] == rows[r];
    InsertRow(links, heads[r], t, r, rows[r], pos[r], ids);
    RowsFrame(next, prev, links.next, links.prev, r, cur, L.InsertAt(rows[r], pos[r], t), ids);
    assert cur[r := L.InsertAt(rows[r], pos[r], t)] == Placed(rows, pos, t, r);
  }

  /** The rows `rows'` are `rows` with `t` inserted in deadline order from row `lo` on. */
  ghost predicate Inserted(rows: seq<seq<Id>>, rows': seq<seq<Id>>, t: Id, rk: map<Id, int>, lo: int) {
    && |rows'| == |rows| && t in rk && 0 <= lo < |rows|
    && (forall i, x :: 0 <= i < |rows| && x in rows[i] ==> x in rk)
    && rows' == RowsWith(rows, t, rk, lo)
  }

  lemma ReadyToLink(s: State, t: Id)
    requires Good(s) && t in s.init
    ensures InOrder(Without(s.pending, t), Ranks(NewTimeout(s, t), s.tick))
    ensures Ranks(NewTimeout(s, t), s.tick)[t] < HALF && IsTick(NewTimeout(s, t)[t])
  {
    NewRank(s.tick, s.init[t]);
    WithoutIn(s.pending, t);
    WithoutInOrder(s.pending, t, Ranks(s.timeout, s.tick));
    SortedAgree(Without(s.pending, t), Ranks(s.timeout, s.tick), Ranks(NewTimeout(s, t), s.tick));
  }

  /** In each of the first rows, the node behind which a deadline of rank `k` goes. */
  ghost predicate HeadsFound(rows: seq<seq<Id>>, rk: map<Id, int>, k: int, heads: seq<Node>, pos: seq<nat>) {
    && |heads| == |pos| <= |rows|
    && forall i :: 0 <= i < |heads| ==> Position(rows[i], rk, k, pos[i]) && heads[i] == RowRing(rows[i], i)[pos[i]]
  }

  lemma OneMoreHead(rows: seq<seq<Id>>, rk: map<Id, int>, k: int, heads: seq<Node>, pos: seq<nat>, h: Node, p: nat)
    requires HeadsFound(rows, rk, k, heads, pos) && |heads| < |rows|
    requires Position(rows[|heads|], rk, k, p) && h == RowRing(rows[|heads|], |heads|)[p]
    ensures HeadsFound(rows, rk, k, heads + [h], pos + [p])
  {
  }

  /** The walks of rt_timer_start: in every row the node behind which deadline `d` goes. */
  method FindHeads(links: L.Store<Node>, levels: nat, timeout: map<Id, int>, d: int, ghost tick: int,
                   ghost rows: seq<seq<Id>>, ghost keep: seq<set<Id>>, ghost ids: set<Id>, ghost rk: map<Id, int>,
                   ghost k: int)
    returns (heads: seq<Node>, ghost pos: seq<nat>)
    requires levels == |rows| && AllLinked(links.next, links.prev, rows, ids) && Layered(rows, keep)
    requires IsTick(tick) && IsTick(d) && rk == Ranks(timeout, tick) && k == Rank(tick, d) < HALF
    requires InOrder(rows[levels - 1], rk) && forall x :: x in timeout ==> IsTick(timeout[x])
    ensures |heads| == |pos| == levels && HeadsFound(rows, rk, k, heads, pos)
  {
    heads, pos := [], [];
    var start := Node(Head, 0);
    ghost var p0: nat := 0;
    RowInOrder(rows, keep, 0, rk);
    for r := 0 to levels
      invariant |heads| == |pos| == r && HeadsFound(rows, rk, k, heads, pos)
      invariant r < levels ==> NoneLater(rows[r], rk, k, p0) && start == RowRing(rows[r], r)[p0]
    {
      RowInOrder(rows, keep, r, rk);
      var h, p := FindRow(links, timeout, d, r, start, rows[r], p0, ids, tick, rk, k);
      OneMoreHead(rows, rk, k, heads, pos, h, p);
      heads, pos := heads + [h], pos + [p];
      if r < levels - 1 {
        start := Node(h.owner, r + 1);
        p0 := Descend(rows, keep, r, rk, k, p);
      }
    }
  }

  lemma NotInRows(rows: seq<seq<Id>>, keep: seq<set<Id>>, t: Id)
    requires Layered(rows, keep) && forall r :: 0 <= r < |keep| ==> t !in keep[r]
    ensures forall r :: 0 <= r < |rows| ==> t !in rows[r]
  {
    forall r | 0 <= r < |rows| ensures t !in rows[r] { SelectIn(rows[|rows| - 1], keep[r]); }
  }

  /** The second half of rt_timer_start: an unlinked timer is linked by its deadline. */
  method Link(links: L.Store<Node>, levels: nat, timeout: map<Id, int>, t: Id, nr: nat, ghost tick: int,
              ghost rows: seq<seq<Id>>, ghost keep: seq<set<Id>>, ghost ids: set<Id>, ghost rk: map<Id, int>)
    returns (ghost rows': seq<seq<Id>>, ghost keep': seq<set<Id>>)
    requires levels == |rows| && AllLinked(links.next, links.prev, rows, ids) && Layered(rows, keep)
    requires t in ids && t in timeout && IsTick(tick) && rk == Ranks(timeout, tick) && rk[t] < HALF
    requires InOrder(rows[levels - 1], rk) && forall x :: x in timeout ==> IsTick(timeout[x])
    requires forall r :: 0 <= r < levels ==> t !in keep[r]
    modifies links
    ensures AllLinked(links.next, links.prev, rows', ids) && Layered(rows', keep')
    ensures Inserted(rows, rows', t, rk, levels - 1 - Extra(nr, levels - 1))
  {
    var heads, pos := FindHeads(links, levels, timeout, timeout[t], tick, rows, keep, ids, rk, rk[t]);
    NotInRows(rows, keep, t);
    ghost var lo := LinkRows(links, levels, heads, t, nr, rows, pos, ids);
    rows', keep' := Placed(rows, pos, t, lo), KeepWith(keep, t, lo);
    LinkedRows(rows, keep, pos, t, lo, rk, levels, nr);
  }

  lemma LinkedRows(rows: seq<seq<Id>>, keep: seq<set<Id>>, pos: seq<nat>, t: Id, lo: int, rk: map<Id, int>, levels: nat,
                   nr: nat)
    requires levels == |rows| > 0 && lo == levels - 1 - Extra(nr, levels - 1) && Layered(rows, keep)
    requires InOrder(rows[|rows| - 1], rk) && t in rk
    requires |pos| == |rows|
    requires forall r :: 0 <= r < |rows| ==> pos[r] <= |rows[r]| && Position(rows[r], rk, rk[t], pos[r])
    requires 0 <= lo < |rows| && t !in rows[|rows| - 1] && forall r :: 0 <= r < |keep| ==> t !in keep[r]
    ensures Layered(Placed(rows, pos, t, lo), KeepWith(keep, t, lo))
    ensures Inserted(rows, Placed(rows, pos, t, lo), t, rk, levels - 1 - Extra(nr, levels - 1))
  {
    PlacedSorted(rows, pos, t, lo, rk);
    LayeredWith(rows, keep, t, rk, lo);
  }

  lemma StartedState(s: State, rows: seq<seq<Id>>, rows': seq<seq<Id>>, t: Id, lo: int, r: State)
    requires Good(s) && t in s.init && rows != [] && s.pending == rows[|rows| - 1]
    requires Inserted(RowsWithout(rows, t), rows', t, Ranks(NewTimeout(s, t), s.tick), lo)
    requires r == s.(timeout := NewTimeout(s, t), active := s.active - {t} + {t}, pending := rows'[|rows| - 1])
    ensures r == TimerSpec.Start(s, t) && Good(r)
  {
    assert s.active - {t} + {t} == s.active + {t};
    StartGood(s, t);
  }

  /** Firing the timers `fired` one after the other leads from `s` to `r`. */
  ghost predicate Rounds(s: State, fired: seq<Id>, r: State)
    decreases |fired|
  {
    if fired == [] then r == s
    else exists m ::
      Rounds(s, fired[..|fired| - 1], m) && Good(m) && Due(m) && m.pending[0] == fired[|fired| - 1] && r == Fire(m)
  }

  lemma NextRound(s: State, fired: seq<Id>, m: State, t: Id)
    requires Rounds(s, fired, m) && Good(m) && Due(m) && t == m.pending[0]
    ensures Rounds(s, fired + [t], Fire(m)) && |DueSeq(Fire(m))| < |DueSeq(m)|
  {
    FireDue(m);
    Extended(s, fired, m, t, Fire(m));
  }

  lemma Extended(s: State, fired: seq<Id>, m: State, t: Id, r: State)
    requires Rounds(s, fired, m) && Good(m) && Due(m) && t == m.pending[0] && r == Fire(m)
    ensures Rounds(s, fired + [t], r)
  {
    var f := fired + [t];
    assert f[..|f| - 1] == fired && f[|f| - 1] == t;
  }

  lemma Shift(p: seq<Id>, t: Id, q: seq<Id>)
    ensures p + ([t] + q) == (p + [t]) + q
  {
  }

  lemma AddNothing(s: seq<Id>)
    ensures s + [] == s
  {
  }

  lemma Snoc(s: seq<Id>)
    requires s != []
    ensures s == s[..|s| - 1] + [s[|s| - 1]]
  {
  }

  lemma {:induction false} RoundsCheck(s: State, fired: seq<Id>, r: State)
    requires Good(s) && Good(r) && Rounds(s, fired, r)
    ensures TimerSpec.Check(s) == (TimerSpec.Check(r).0, fired + TimerSpec.Check(r).1)
    decreases |fired|
  {
    if fired == [] {
      assert fired + TimerSpec.Check(r).1 == TimerSpec.Check(r).1;
    } else {
      var p := fired[..|fired| - 1];
      var m :| Rounds(s, p, m) && Good(m) && Due(m) && m.pending[0] == fired[|fired| - 1] && r == Fire(m);
      RoundsCheck(s, p, m);
      Shift(p, m.pending[0], TimerSpec.Check(r).1);
      Snoc(fired);
    }
  }

  lemma FirstKnown(s: State)
    requires Good(s) && s.pending != []
    ensures s.pending[0] in s.init && s.pending[0] in s.timeout && Known(s.callbacks[s.pending[0]], s.init.Keys)
  {
    assert s.pending[0] in s.pending;
  }

  /** The system with one more timer, not started. */
  ghost function Grown(s: State, t: Id, time: int, isPeriodic: bool, callback: seq<Op>): State {
    s.(init := s.init[t := time], timeout := s.timeout[t := 0], callbacks := s.callbacks[t := callback],
       periodic := if isPeriodic then s.periodic + {t} else s.periodic)
  }

  lemma GrowGood(s: State, t: Id, time: int, isPeriodic: bool, callback: seq<Op>)
    requires Good(s) && t !in s.init && 0 < time < HALF && Known(callback, s.init.Keys + {t})
    ensures Good(Grown(s, t, time, isPeriodic, callback)) && t !in s.pending
  {
    var r := Grown(s, t, time, isPeriodic, callback);
    forall x | x in r.callbacks ensures Known(r.callbacks[x], r.init.Keys) {}
    assert forall x :: x in s.pending ==> x in s.timeout;
    SortedAgree(s.pending, Ranks(s.timeout, s.tick), Ranks(r.timeout, s.tick));
  }

  class Timers {
    const levels: nat // RT_TIMER_SKIP_LIST_LEVEL
    const links: L.Store<Node>
    var tick: int     // rt_tick
    var timeout: map<Id, int>
    var init: map<Id, int>
    var callbacks: map<Id, seq<Op>>
    var active: set<Id>   // flag has RT_TIMER_FLAG_ACTIVATED
    var periodic: set<Id> // flag has RT_TIMER_FLAG_PERIODIC
    var randomNr: nat
    ghost var rows: seq<seq<Id>>
    ghost var keep: seq<set<Id>>

    ghost function Abs(): State
      reads this
      requires |rows| > 0
    {
      State(tick, rows[|rows| - 1], timeout, init, active, periodic, callbacks)
    }

    ghost predicate Shape()
      reads this, links
    {
      && levels == |rows| && randomNr < TICKS
      && AllLinked(links.next, links.prev, rows, init.Keys) && Layered(rows, keep)
    }

    ghost predicate Valid()
      reads this, links
    {
      Shape() && Good(Abs())
    }

    /** rt_system_timer_init */
    constructor (levels: nat)
      requires levels >= 1
      ensures Valid() && this.levels == levels && init == map[] && Abs().pending == [] && tick == 0 && fresh(links)
    {
      this.levels := levels;
      links := new L.Store<Node>();
      tick, randomNr, timeout, init, callbacks, active, periodic := 0, 0, map[], map[], map[], {}, {};
      rows, keep := seq(levels, _ => []), seq(levels, _ => {});
      new;
      InitNodes(links, levels, Head);
      assert rows[levels - 1] == [] && forall r :: 0 <= r < levels ==> rows[r] == [];
      forall r | 0 <= r < levels ensures RowLinked(links.next, links.prev, rows[r], r, {}) {
        assert RowRing(rows[r], r) == [Node(Head, r)];
      }
    }

    /** rt_timer_init of a timer not known before. */
    method InitTimer(t: Id, time: int, isPeriodic: bool, callback: seq<Op>)
      requires Valid() && t !in init && 0 < time < HALF && Known(callback, init.Keys + {t})
      modifies this, links
      ensures Valid() && rows == old(rows) && keep == old(keep)
      ensures Abs() == Grown(old(Abs()), t, time, isPeriodic, callback)
      ensures init == old(init)[t := time] && callbacks == old(callbacks)[t := callback]
      ensures periodic == old(periodic) + (if isPeriodic then {t} else {}) && active == old(active)
    {
      assert t !in rows[levels - 1] by { GrowGood(Abs(), t, time, isPeriodic, callback); }
      AddNodes(links, levels, t, rows, keep, init.Keys);
      SetFields(t, time, isPeriodic, callback);
    }

    method SetFields(t: Id, time: int, isPeriodic: bool, callback: seq<Op>)
      requires levels == |rows| && randomNr < TICKS && Layered(rows, keep) && Good(Abs())
      requires AllLinked(links.next, links.prev, rows, init.Keys + {t})
      requires t !in init && 0 < time < HALF && Known(callback, init.Keys + {t})
      modifies this`periodic, this`callbacks, this`timeout, this`init
      ensures Valid()
      ensures Abs() == Grown(old(Abs()), t, time, isPeriodic, callback)
    {
      GrowGood(Abs(), t, time, isPeriodic, callback);
      assert init[t := time].Keys == init.Keys + {t};
      WriteFields(t, time, isPeriodic, callback);
    }

    method WriteFields(t: Id, time: int, isPeriodic: bool, callback: seq<Op>)
      requires |rows| > 0
      modifies this`periodic, this`callbacks, this`timeout, this`init
      ensures Abs() == Grown(old(Abs()), t, time, isPeriodic, callback) && init == old(init)[t := time]
    {
      periodic := if isPeriodic then periodic + {t} else periodic;
      callbacks := callbacks[t := callback];
      timeout := timeout[t := 0];
      init := init[t := time];
    }

    /** _rt_timer_remove: the timer leaves every row it is in. */
    method Remove(t: Id)
      requires Shape() && t in init && InOrder(rows[levels - 1], Ranks(timeout, tick))
      modifies links, this`rows, this`keep
      ensures Shape() && rows == RowsWithout(old(rows), t) && keep == KeepWithout(old(keep), t)
    {
      forall r | 0 <= r < levels ensures Distinct(rows[r]) { RowInOrder(rows, keep, r, Ranks(timeout, tick)); }
      ghost var rows', keep' := RowsWithout(rows, t), KeepWithout(keep, t);
      RemoveAll(links, levels, t, rows, init.Keys);
      LayeredWithout(rows, keep, t);
      rows, keep := rows', keep';
    }

    method Start(t: Id)
      requires Valid() && t in init
      modifies links, this`rows, this`keep, this`randomNr, this`active, this`timeout
      ensures Valid() && Abs() == TimerSpec.Start(old(Abs()), t)
      ensures randomNr == (old(randomNr) + 1) % TICKS
      ensures Inserted(RowsWithout(old(rows), t), rows, t, Ranks(timeout, tick),
        levels - 1 - Extra(randomNr, levels - 1))
    {
      ghost var s, rows0 := Abs(), rows;
      PutInRows(t);
      StartedState(s, rows0, rows, t, levels - 1 - Extra(randomNr, levels - 1), Abs());
    }

    /** Both halves of rt_timer_start. */
    method PutInRows(t: Id)
      requires Valid() && t in init
      modifies links, this`rows, this`keep, this`randomNr, this`active, this`timeout
      ensures Shape() && randomNr == (old(randomNr) + 1) % TICKS
      ensures timeout == NewTimeout(old(Abs()), t) && active == old(active) - {t} + {t}
      ensures Inserted(RowsWithout(old(rows), t), rows, t, Ranks(timeout, tick),
        levels - 1 - Extra(randomNr, levels - 1))
    {
      ReadyToLink(Abs(), t);
      Detach(t);
      Relink(t);
    }

    /** The first half of rt_timer_start: unlink, and set the new deadline. */
    method Detach(t: Id)
      requires Shape() && t in init && InOrder(rows[levels - 1], Ranks(timeout, tick))
      modifies links, this`rows, this`keep, this`active, this`timeout
      ensures Shape() && rows == RowsWithout(old(rows), t) && keep == KeepWithout(old(keep), t)
      ensures active == old(active) - {t} && timeout == old(timeout)[t := Add(tick, init[t])]
    {
      Remove(t);
      active := active - {t};
      timeout := timeout[t := Add(tick, init[t])];
    }

    method Relink(t: Id)
      requires Shape() && t in init && t in timeout && IsTick(tick) && Ranks(timeout, tick)[t] < HALF
      requires InOrder(rows[levels - 1], Ranks(timeout, tick)) && forall x :: x in timeout ==> IsTick(timeout[x])
      requires forall r :: 0 <= r < levels ==> t !in keep[r]
      modifies links, this`rows, this`keep, this`randomNr, this`active
      ensures Shape() && active == old(active) + {t} && randomNr == (old(randomNr) + 1) % TICKS
      ensures Inserted(old(rows), rows, t, Ranks(timeout, tick), levels - 1 - Extra(randomNr, levels - 1))
    {
      randomNr := (randomNr + 1) % TICKS;
      rows, keep := Link(links, levels, timeout, t, randomNr, tick, rows, keep, init.Keys, Ranks(timeout, tick));
      active := active + {t};
    }

    /** rt_timer_stop; false is -RT_ERROR. */
    method Stop(t: Id) returns (ok: bool)
      requires Valid() && t in init
      modifies links, this`rows, this`keep, this`active
      ensures Valid() && Abs() == TimerSpec.Stop(old(Abs()), t)
      ensures ok <==> t in old(active)
      ensures rows == if ok then RowsWithout(old(rows), t) else old(rows)
    {
      if t !in active {
        return false;
      }
      ghost var s := Abs();
      Remove(t);
      active := active - {t};
      StopGood(s, t);
      assert Abs() == TimerSpec.Stop(s, t);
      ok := true;
    }

    /** rt_timer_control: RT_TIMER_CTRL_SET_TIME */
    method SetTime(t: Id, ticks: int)
      requires Valid() && t in init && 0 < ticks < HALF
      modifies this`init
      ensures Valid() && Abs() == TimerSpec.SetTime(old(Abs()), t, ticks)
    {
      ControlGood(Abs(), TimeOp(t, ticks));
      assert init[t := ticks].Keys == init.Keys;
      init := init[t := ticks];
    }

    /** rt_timer_control: RT_TIMER_CTRL_SET_ONESHOT and RT_TIMER_CTRL_SET_PERIODIC */
    method SetKind(t: Id, isPeriodic: bool)
      requires Valid() && t in init
      modifies this`periodic
      ensures Valid() && Abs() == TimerSpec.SetKind(old(Abs()), t, isPeriodic)
    {
      ControlGood(Abs(), KindOp(t, isPeriodic));
      periodic := if isPeriodic then periodic + {t} else periodic - {t};
    }

    /** One call about a timer. */
    method Perform(op: Op)
      requires Valid() && Proper(op, init.Keys)
      modifies links, this`rows, this`keep, this`randomNr, this`active, this`timeout, this`init, this`periodic
      ensures Valid() && Abs() == Do(old(Abs()), op)
    {
      match op
      case StartOp(t) => Start(t);
      case StopOp(t) => var _ := Stop(t);
      case TimeOp(t, ticks) => SetTime(t, ticks);
      case KindOp(t, isPeriodic) => SetKind(t, isPeriodic);
    }

    /** A timeout function at work. */
    method RunCallback(ops: seq<Op>)
      requires Valid() && Known(ops, init.Keys)
      modifies links, this`rows, this`keep, this`randomNr, this`active, this`timeout, this`init, this`periodic
      ensures Valid() && Abs() == Call(old(Abs()), ops)
      decreases |ops|
    {
      if ops != [] {
        Perform(ops[0]);
        RunCallback(ops[1..]);
      }
    }

    /** The timer at the front of the last row. */
    method First() returns (empty: bool, t: Id)
      requires Valid()
      ensures empty <==> Abs().pending == []
      ensures !empty ==> t == Abs().pending[0]
    {
      var h := Node(Head, levels - 1);
      ghost var row := rows[levels - 1];
      assert RowLinked(links.next, links.prev, rows[levels - 1], levels - 1, init.Keys);
      empty := links.IsEmpty(h, RowRing(row, levels - 1));
      t := 0;
      if !empty {
        NextNode(links.next, links.prev, row, levels - 1, init.Keys, 0);
        t := links.next[h].owner.id;
      }
    }

    /** rt_timer_list_next_timeout */
    method NextTimeout() returns (r: int)
      requires Valid()
      ensures Abs().pending == [] ==> r == TICK_MAX
      ensures Abs().pending != [] ==> r == timeout[Abs().pending[0]]
    {
      var empty, t := First();
      assert Abs().pending != [] ==> Abs().pending[0] in Abs().pending;
      r := if empty then TICK_MAX else timeout[t];
    }

    /** One round of rt_timer_check for the first timer `t`. */
    method FireFirst(t: Id)
      requires Valid() && Abs().pending != [] && t == Abs().pending[0] && Due(Abs())
      modifies links, this`rows, this`keep, this`randomNr, this`active, this`timeout, this`init, this`periodic
      ensures Valid() && Abs() == Fire(old(Abs()))
    {
      ghost var s := Abs();
      FirstKnown(s);
      Remove(t);
      assert Abs() == Popped(s) by { WithoutAt(s.pending, 0); }
      RunCallback(callbacks[t]);
      FinishFirst(t);
    }

    /** The end of the round: a periodic timer still activated is started again. */
    method FinishFirst(t: Id)
      requires Valid() && t in init
      modifies links, this`rows, this`keep, this`randomNr, this`active, this`timeout, this`init, this`periodic
      ensures Valid() && Abs() == Finish(old(Abs()), t)
    {
      ghost var c := Abs();
      var restart := t in periodic && t in active;
      active := active - {t};
      if restart {
        Start(t);
      }
      assert Abs() == Finish(c, t);
    }

    /** The test and the body of the loop in rt_timer_check. */
    method Round() returns (done: bool, t: Id)
      requires Valid()
      modifies links, this`rows, this`keep, this`randomNr, this`active, this`timeout, this`init, this`periodic
      ensures Valid() && (done <==> !old(Due(Abs())))
      ensures done ==> Abs() == old(Abs())
      ensures !done ==> t == old(Abs()).pending[0] && Abs() == Fire(old(Abs()))
    {
      var empty;
      empty, t := First();
      if empty {
        return true, t;
      }
      FirstKnown(Abs());
      if Sub(tick, timeout[t]) < HALF {
        FireFirst(t);
        done := false;
      } else {
        done := true;
      }
    }

    /** rt_timer_check, run with the tick unchanged; `fired` lists the timers whose functions it called. */
    method Check() returns (fired: seq<Id>)
      requires Valid()
      modifies links, this`rows, this`keep, this`randomNr, this`active, this`timeout, this`init, this`periodic
      ensures Valid() && (Abs(), fired) == TimerSpec.Check(old(Abs()))
    {
      fired := [];
      var done := false;
      ghost var s0 := Abs();
      while !done
        invariant Valid() && Rounds(s0, fired, Abs())
        invariant done ==> !Due(Abs())
        decreases |DueSeq(Abs())|, !done
      {
        done, fired := LoggedRound(fired, s0);
      }
      RoundsCheck(s0, fired, Abs());
      AddNothing(fired);
    }

    method LoggedRound(before: seq<Id>, ghost s0: State) returns (done: bool, fired: seq<Id>)
      requires Valid() && Rounds(s0, before, Abs())
      modifies links, this`rows, this`keep, this`randomNr, this`active, this`timeout, this`init, this`periodic
      ensures Valid() && Rounds(s0, fired, Abs())
      ensures if done then !Due(Abs()) && Abs() == old(Abs()) else |DueSeq(Abs())| < old(|DueSeq(Abs())|)
    {
      ghost var s := Abs();
      var t;
      done, t := Round();
      fired := before;
      if !done {
        NextRound(s0, before, s, t);
        fired := before + [t];
      }
    }

    /** The timer part of rt_tick_increase. */
    method Tick() returns (fired: seq<Id>)
      requires Valid() && Settled(Abs())
      modifies this, links
      ensures Valid() && (Abs(), fired) == Next(old(Abs()), Event.Tick)
    {
      TickGood(Abs());
      tick := Add(tick, 1);
      fired := Check();
    }
  }
}
