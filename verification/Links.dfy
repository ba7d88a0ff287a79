/** The intrusive circular doubly linked lists of rt-thread/include/rtservice.h. Nodes are named
    by values of `N`; the store holds every node's next and prev field. */
module Links {

  /** `c` is a cycle: each node points to the one after it and back to the one before it. */
  ghost predicate Ring<N>(next: map<N, N>, prev: map<N, N>, c: seq<N>) {
    && |c| > 0 && Distinct(c)
    && (forall i :: 0 <= i < |c| ==> c[i] in next && c[i] in prev)
    && (forall i, j :: 0 <= i < |c| && j == Succ(i, |c|) ==> next[c[i]] == c[j] && prev[c[j]] == c[i])
  }

  function Succ(i: nat, n: nat): nat {
    if i + 1 == n then 0 else i + 1
  }

  function InsertAt<N>(c: seq<N>, i: nat, n: N): seq<N>
    requires i <= |c|
  {
    c[..i] + [n] + c[i..]
  }

  function RemoveAt<N>(c: seq<N>, i: nat): seq<N>
    requires i < |c|
  {
    c[..i] + c[i + 1..]
  }

  /** Fields of nodes outside `s` did not change. */
  ghost predicate SameOutside<N(!new)>(next: map<N, N>, prev: map<N, N>, next': map<N, N>, prev': map<N, N>,
                                       s: seq<N>) {
    && next'.Keys == next.Keys && prev'.Keys == prev.Keys
    && (forall x :: x in next && x !in s ==> next'[x] == next[x])
    && (forall x :: x in prev && x !in s ==> prev'[x] == prev[x])
  }

  /** A ring whose nodes kept their fields is still a ring. */
  lemma RingAgree<N>(next: map<N, N>, prev: map<N, N>, next': map<N, N>, prev': map<N, N>, c: seq<N>)
    requires Ring(next, prev, c)
    requires forall x :: x in c ==> x in next' && x in prev' && next'[x] == next[x] && prev'[x] == prev[x]
    ensures Ring(next', prev', c)
  {
  }

  /** A ring apart from the changed nodes is still a ring. */
  lemma RingFrame<N(!new)>(next: map<N, N>, prev: map<N, N>, next': map<N, N>, prev': map<N, N>, s: seq<N>, c: seq<N>)
    requires Ring(next, prev, c) && SameOutside(next, prev, next', prev', s)
    requires forall x :: x in c ==> x !in s
    ensures Ring(next', prev', c)
  {
  }

  lemma InsertedAt<N>(c: seq<N>, i: nat, n: N, k: nat)
    requires i < |c| && k <= |c|
    ensures InsertAt(c, i + 1, n)[k] == if k <= i then c[k] else if k == i + 1 then n else c[k - 1]
  {
  }

  lemma RemovedAt<N>(c: seq<N>, i: nat, k: nat)
    requires i < |c| && k < |c| - 1
    ensures RemoveAt(c, i)[k] == if k < i then c[k] else c[k + 1]
  {
  }

  ghost predicate Distinct<N>(c: seq<N>) {
    forall i, j :: 0 <= i < j < |c| ==> c[i] != c[j]
  }

  lemma InsertDistinct<N>(c: seq<N>, i: nat, n: N)
    requires Distinct(c) && i < |c| && n !in c
    ensures Distinct(InsertAt(c, i + 1, n))
  {
  }

  lemma RemoveDistinct<N>(c: seq<N>, i: nat)
    requires Distinct(c) && i < |c|
    ensures Distinct(RemoveAt(c, i)) && c[i] !in RemoveAt(c, i)
  {
  }

  /** Linking a new node behind node `i` of a ring. */
  lemma InsertRing<N>(next: map<N, N>, prev: map<N, N>, next': map<N, N>, prev': map<N, N>, c: seq<N>, i: nat, n: N)
    requires Ring(next, prev, c) && i < |c| && n !in c
    requires var q := c[Succ(i, |c|)];
      && next' == next[n := q][c[i] := n]
      && prev' == prev[q := n][n := c[i]]
    ensures Ring(next', prev', InsertAt(c, i + 1, n))
  {
    var r := InsertAt(c, i + 1, n);
    InsertDistinct(c, i, n);
    forall k | 0 <= k < |r| ensures r[k] in next' && r[k] in prev' { InsertedAt(c, i, n, k); }
    forall k, j | 0 <= k < |r| && j == Succ(k, |r|) ensures next'[r[k]] == r[j] && prev'[r[j]] == r[k] {
      InsertedAt(c, i, n, k);
      InsertedAt(c, i, n, j);
      if k != i && k != i + 1 {
        var k' := if k < i then k else k - 1;
        assert next[c[k']] == c[Succ(k', |c|)];
      }
    }
  }

  /** Unlinking node `i` of a ring of several nodes. */
  lemma RemoveRing<N>(next: map<N, N>, prev: map<N, N>, next': map<N, N>, prev': map<N, N>, c: seq<N>, i: nat)
    requires Ring(next, prev, c) && i < |c| && |c| > 1
    requires next' == next[prev[c[i]] := next[c[i]]][c[i] := c[i]]
    requires prev' == prev[next[c[i]] := prev[c[i]]][c[i] := c[i]]
    ensures Ring(next', prev', RemoveAt(c, i)) && Ring(next', prev', [c[i]])
  {
    var r := RemoveAt(c, i);
    var p := if i == 0 then |c| - 1 else i - 1;
    var q := Succ(i, |c|);
    assert i == Succ(p, |c|);
    assert prev[c[i]] == c[p] && next[c[i]] == c[q];
    RemoveDistinct(c, i);
    forall k | 0 <= k < |r| ensures r[k] in next' && r[k] in prev' { RemovedAt(c, i, k); }
    forall k, j | 0 <= k < |r| && j == Succ(k, |r|) ensures next'[r[k]] == r[j] && prev'[r[j]] == r[k] {
      RemovedAt(c, i, k);
      RemovedAt(c, i, j);
      var k' := if k < i then k else k + 1;
      if k' != p { assert next[c[k']] == c[Succ(k', |c|)]; }
    }
  }

  class Store<N(==, !new)> {
    var next: map<N, N>
    var prev: map<N, N>

    constructor ()
      ensures next == map[] && prev == map[]
    {
      next, prev := map[], map[];
    }

    /** rt_list_init */
    method Init(l: N)
      modifies this
      ensures next == old(next)[l := l] && prev == old(prev)[l := l]
      ensures Ring(next, prev, [l])
    {
      prev := prev[l := l];
      next := next[l := l];
    }

    /** rt_list_insert_after: `n` goes behind `l`, which is node `i` of ring `c`. */
    method InsertAfter(l: N, n: N, ghost c: seq<N>, ghost i: nat)
      requires Ring(next, prev, c) && i < |c| && c[i] == l && n !in c && n in next && n in prev
      modifies this
      ensures Ring(next, prev, InsertAt(c, i + 1, n))
      ensures SameOutside(old(next), old(prev), next, prev, c + [n])
    {
      prev := prev[next[l] := n];
      next := next[n := next[l]];
      next := next[l := n];
      prev := prev[n := l];
      InsertRing(old(next), old(prev), next, prev, c, i, n);
    }

    /** rt_list_insert_before: `n` goes in front of `l`, which is node `i` of ring `c`. */
    method InsertBefore(l: N, n: N, ghost c: seq<N>, ghost i: nat)
      requires Ring(next, prev, c) && i < |c| && c[i] == l && n !in c && n in next && n in prev
      modifies this
      ensures Ring(next, prev, InsertAt(c, if i == 0 then |c| else i, n))
      ensures SameOutside(old(next), old(prev), next, prev, c + [n])
    {
      ghost var p := if i == 0 then |c| - 1 else i - 1;
      assert i == Succ(p, |c|) && prev[l] == c[p];
      next := next[prev[l] := n];
      prev := prev[n := prev[l]];
      prev := prev[l := n];
      next := next[n := l];
      InsertRing(old(next), old(prev), old(next)[n := l][c[p] := n], old(prev)[l := n][n := c[p]], c, p, n);
      assert next == old(next)[n := l][c[p] := n];
      assert prev == old(prev)[l := n][n := c[p]];
    }

    /** rt_list_remove; on a node linked to itself it changes nothing. */
    method Remove(n: N, ghost c: seq<N>, ghost i: nat)
      requires Ring(next, prev, c) && i < |c| && c[i] == n
      modifies this
      ensures |c| == 1 ==> next == old(next) && prev == old(prev)
      ensures |c| > 1 ==> Ring(next, prev, RemoveAt(c, i)) && Ring(next, prev, [n])
      ensures SameOutside(old(next), old(prev), next, prev, c)
    {
      ghost var p := if i == 0 then |c| - 1 else i - 1;
      assert i == Succ(p, |c|) && prev[n] == c[p] && next[n] == c[Succ(i, |c|)];
      prev := prev[next[n] := prev[n]];
      next := next[prev[n] := next[n]];
      if |c| > 1 {
        assert prev[n] == c[p];
      }
      next := next[n := n];
      prev := prev[n := n];
      if |c| > 1 {
        RemoveRing(old(next), old(prev), next, prev, c, i);
      } else {
        assert next == old(next) && prev == old(prev);
      }
    }

    /** rt_list_isempty */
    method IsEmpty(l: N, ghost c: seq<N>) returns (r: bool)
      requires Ring(next, prev, c) && c[0] == l
      ensures r <==> |c| == 1
    {
      assert next[c[0]] == c[Succ(0, |c|)];
      r := next[l] == l;
    }

    /** rt_list_len */
    method Len(l: N, ghost c: seq<N>) returns (len: nat)
      requires Ring(next, prev, c) && c[0] == l
      ensures len == |c| - 1
    {
      len := 0;
      var p := l;
      assert next[c[0]] == c[Succ(0, |c|)];
      while next[p] != l
        invariant len < |c| && p == c[len] && p in next
        decreases |c| - len
      {
        assert next[c[len]] == c[Succ(len, |c|)];
        p := next[p];
        len := len + 1;
        assert next[c[len]] == c[Succ(len, |c|)];
      }
      assert next[c[len]] == c[Succ(len, |c|)];
    }
  }
}
