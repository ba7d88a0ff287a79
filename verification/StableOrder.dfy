/** Sequences kept in rank order, equal ranks first come first: pending timers by deadline, waiting
    threads by priority. */
module StableOrder {

  type Id = nat

  ghost predicate Sorted(s: seq<Id>, rk: map<Id, int>) {
    && (forall i :: 0 <= i < |s| ==> s[i] in rk)
    && (forall i, j :: 0 <= i < j < |s| ==> rk[s[i]] <= rk[s[j]])
  }

  ghost predicate Distinct(s: seq<Id>) {
    forall i, j :: 0 <= i < j < |s| ==> s[i] != s[j]
  }

  /** `t` goes behind every element whose rank is not larger than its own. */
  ghost function StableInsert(s: seq<Id>, t: Id, rk: map<Id, int>): (r: seq<Id>)
    requires t in rk && forall x :: x in s ==> x in rk
  {
    if s == [] || rk[t] < rk[s[0]] then [t] + s
    else [s[0]] + StableInsert(s[1..], t, rk)
  }

  ghost function Select(s: seq<Id>, keep: set<Id>): seq<Id> {
    if s == [] then []
    else if s[0] in keep then [s[0]] + Select(s[1..], keep)
    else Select(s[1..], keep)
  }

  ghost function Without(s: seq<Id>, t: Id): seq<Id> {
    if s == [] then []
    else if s[0] == t then Without(s[1..], t)
    else [s[0]] + Without(s[1..], t)
  }

  /** `a` is obtained from `b` by leaving out elements. */
  ghost predicate Subsequence(a: seq<Id>, b: seq<Id>) {
    if a == [] then true
    else if b == [] then false
    else if a[0] == b[0] then Subsequence(a[1..], b[1..])
    else Subsequence(a, b[1..])
  }

  // ---------- insertion ----------

  /** Where stable insertion puts `t`: behind index `p` when no rank before is larger and every rank from
      there on is. */
  lemma {:induction false} InsertPosition(s: seq<Id>, t: Id, rk: map<Id, int>, p: nat)
    requires t in rk && (forall x :: x in s ==> x in rk) && p <= |s|
    requires forall i :: 0 <= i < p ==> rk[s[i]] <= rk[t]
    requires forall i :: p <= i < |s| ==> rk[t] < rk[s[i]]
    ensures StableInsert(s, t, rk) == s[..p] + [t] + s[p..]
  {
    if p > 0 {
      assert rk[s[0]] <= rk[t];
      InsertPosition(s[1..], t, rk, p - 1);
      assert [s[0]] + (s[1..][..p - 1] + [t] + s[1..][p - 1..]) == s[..p] + [t] + s[p..];
    }
  }

  /** Stable insertion keeps the order and adds exactly one element. */
  lemma {:induction false} InsertSorted(s: seq<Id>, t: Id, rk: map<Id, int>)
    requires Sorted(s, rk) && t in rk
    ensures Sorted(StableInsert(s, t, rk), rk)
    ensures |StableInsert(s, t, rk)| == |s| + 1
    ensures forall x :: x in StableInsert(s, t, rk) <==> x == t || x in s
  {
    var r := StableInsert(s, t, rk);
    if s == [] || rk[t] < rk[s[0]] {
      ConsSorted(t, s, rk);
    } else {
      var q := StableInsert(s[1..], t, rk);
      InsertSorted(s[1..], t, rk);
      assert s == [s[0]] + s[1..];
      forall j | 0 <= j < |q| ensures q[j] in rk && rk[s[0]] <= rk[q[j]] {
        assert q[j] in q;
        if q[j] != t { var i :| 0 <= i < |s[1..]| && s[1..][i] == q[j]; }
      }
      ConsSorted(s[0], q, rk);
    }
  }

  lemma ConsSorted(x: Id, q: seq<Id>, rk: map<Id, int>)
    requires Sorted(q, rk) && x in rk && forall j :: 0 <= j < |q| ==> rk[x] <= rk[q[j]]
    ensures Sorted([x] + q, rk) && forall y :: y in [x] + q <==> y == x || y in q
  {
  }

  lemma {:induction false} InsertDistinct(s: seq<Id>, t: Id, rk: map<Id, int>)
    requires t in rk && (forall x :: x in s ==> x in rk) && t !in s && Distinct(s)
    ensures Distinct(StableInsert(s, t, rk))
    ensures forall x :: x in StableInsert(s, t, rk) <==> x == t || x in s
  {
    var r := StableInsert(s, t, rk);
    if s == [] || rk[t] < rk[s[0]] {
    } else {
      var q := StableInsert(s[1..], t, rk);
      InsertDistinct(s[1..], t, rk);
      assert s == [s[0]] + s[1..];
      assert forall i :: 0 < i < |r| ==> r[i] == q[i - 1];
      assert s[0] !in s[1..];
    }
  }

  lemma {:induction false} SelectIn(s: seq<Id>, keep: set<Id>)
    ensures forall x :: x in Select(s, keep) <==> x in s && x in keep
  {
    if s != [] {
      SelectIn(s[1..], keep);
      assert s == [s[0]] + s[1..];
    }
  }

  lemma {:induction false} SelectConcat(a: seq<Id>, b: seq<Id>, keep: set<Id>)
    ensures Select(a + b, keep) == Select(a, keep) + Select(b, keep)
  {
    if a == [] {
      assert a + b == b;
    } else {
      assert (a + b)[1..] == a[1..] + b;
      SelectConcat(a[1..], b, keep);
    }
  }

  /** Selecting from a sorted, duplicate-free row keeps both properties. */
  lemma {:induction false} SelectSorted(s: seq<Id>, keep: set<Id>, rk: map<Id, int>)
    requires Sorted(s, rk) && Distinct(s)
    ensures Sorted(Select(s, keep), rk) && Distinct(Select(s, keep))
  {
    if s != [] {
      var q := Select(s[1..], keep);
      assert Sorted(s[1..], rk);
      SelectSorted(s[1..], keep, rk);
      SelectIn(s[1..], keep);
      forall x | x in q ensures rk[s[0]] <= rk[x] && x != s[0] {
        var i :| 0 <= i < |s[1..]| && s[1..][i] == x;
        assert s[i + 1] == x;
      }
      var r := Select(s, keep);
      assert s[0] in keep ==> forall i :: 0 < i < |r| ==> r[i] == q[i - 1];
    }
  }

  /** Inserting commutes with selecting: an upper row may be inserted into on its own. */
  lemma {:induction false} InsertSelect(s: seq<Id>, keep: set<Id>, t: Id, rk: map<Id, int>)
    requires Sorted(s, rk) && t in rk && t !in s
    ensures (forall x :: x in Select(s, keep) ==> x in rk)
    ensures StableInsert(Select(s, keep), t, rk) == Select(StableInsert(s, t, rk), keep + {t})
  {
    SelectIn(s, keep);
    SelectGrow(s, keep, t);
    if s == [] {
      assert StableInsert(s, t, rk)[1..] == [];
    } else if rk[t] < rk[s[0]] {
      var r := StableInsert(s, t, rk);
      assert r[1..] == s;
      var q := Select(s, keep);
      if q != [] {
        assert q[0] in s;
        var i :| 0 <= i < |s| && s[i] == q[0];
      }
    } else {
      assert Sorted(s[1..], rk);
      InsertSelect(s[1..], keep, t, rk);
      var r := StableInsert(s, t, rk);
      assert r[1..] == StableInsert(s[1..], t, rk);
      if s[0] in keep { assert Select(s, keep)[1..] == Select(s[1..], keep); }
    }
  }

  lemma {:induction false} SelectGrow(s: seq<Id>, keep: set<Id>, t: Id)
    requires t !in s
    ensures Select(s, keep + {t}) == Select(s, keep) == Select(s, keep - {t})
  {
    if s != [] {
      assert s == [s[0]] + s[1..];
      SelectGrow(s[1..], keep, t);
    }
  }

  /** A smaller selection is a subsequence of a larger one. */
  lemma {:induction false} SelectSubsequence(s: seq<Id>, small: set<Id>, large: set<Id>)
    requires small <= large
    ensures Subsequence(Select(s, small), Select(s, large))
  {
    if s != [] {
      SelectSubsequence(s[1..], small, large);
      var a, b := Select(s, small), Select(s, large);
      if s[0] in small {
        assert a[1..] == Select(s[1..], small) && b[1..] == Select(s[1..], large);
      } else if s[0] in large {
        assert b[1..] == Select(s[1..], large);
        SkipSubsequence(a, b);
      }
    }
  }

  lemma {:induction false} SkipSubsequence(a: seq<Id>, b: seq<Id>)
    requires b != [] && Subsequence(a, b[1..])
    ensures Subsequence(a, b)
    decreases |b|, 0
  {
    if a != [] && a[0] == b[0] {
      TailSubsequence(a, b[1..]);
    }
  }

  lemma {:induction false} TailSubsequence(a: seq<Id>, b: seq<Id>)
    requires a != [] && Subsequence(a, b)
    ensures Subsequence(a[1..], b)
    decreases |b|, 1
  {
    if a[0] == b[0] {
      SkipSubsequence(a[1..], b);
    } else {
      TailSubsequence(a, b[1..]);
      SkipSubsequence(a[1..], b);
    }
  }

  // ---------- removal ----------

  lemma {:induction false} WithoutIn(s: seq<Id>, t: Id)
    ensures forall x :: x in Without(s, t) <==> x in s && x != t
    ensures t !in s ==> Without(s, t) == s
  {
    if s != [] {
      WithoutIn(s[1..], t);
      assert s == [s[0]] + s[1..];
    }
  }

  /** Removing commutes with selecting. */
  lemma {:induction false} WithoutSelect(s: seq<Id>, keep: set<Id>, t: Id)
    ensures Without(Select(s, keep), t) == Select(Without(s, t), keep)
    ensures Without(Select(s, keep), t) == Select(Without(s, t), keep - {t})
  {
    if s != [] {
      WithoutSelect(s[1..], keep, t);
      var a, b := Select(s, keep), Without(s, t);
      if s[0] in keep { assert a[1..] == Select(s[1..], keep); }
      if s[0] != t { assert b[1..] == Without(s[1..], t); }
    }
  }

  lemma {:induction false} WithoutSorted(s: seq<Id>, t: Id, rk: map<Id, int>)
    requires Sorted(s, rk) && Distinct(s)
    ensures Sorted(Without(s, t), rk) && Distinct(Without(s, t))
  {
    WithoutIsSelect(s, t);
    SelectSorted(s, (set x | x in s) - {t}, rk);
  }

  lemma {:induction false} WithoutIsSelect(s: seq<Id>, t: Id)
    ensures Without(s, t) == Select(s, (set x | x in s) - {t})
  {
    SelectAllBut(s, (set x | x in s), t);
  }

  lemma {:induction false} SelectAllBut(s: seq<Id>, all: set<Id>, t: Id)
    requires forall x :: x in s ==> x in all
    ensures Without(s, t) == Select(s, all - {t})
  {
    if s != [] { SelectAllBut(s[1..], all, t); }
  }

  /** Without at a known place. */
  lemma {:induction false} WithoutAt(s: seq<Id>, i: nat)
    requires Distinct(s) && i < |s|
    ensures Without(s, s[i]) == s[..i] + s[i + 1..]
  {
    if i == 0 {
      WithoutIn(s[1..], s[0]);
      assert s[0] !in s[1..];
    } else {
      WithoutAt(s[1..], i - 1);
      assert [s[0]] + (s[1..][..i - 1] + s[1..][i..]) == s[..i] + s[i + 1..];
    }
  }

  /** Removing undoes inserting. */
  lemma {:induction false} InsertWithout(s: seq<Id>, t: Id, rk: map<Id, int>)
    requires t in rk && (forall x :: x in s ==> x in rk) && t !in s
    ensures Without(StableInsert(s, t, rk), t) == s
  {
    var r := StableInsert(s, t, rk);
    if s == [] || rk[t] < rk[s[0]] {
      assert r[1..] == s;
      WithoutIn(s, t);
    } else {
      assert r[1..] == StableInsert(s[1..], t, rk);
      InsertWithout(s[1..], t, rk);
    }
  }

  lemma {:induction false} DistinctWithout(s: seq<Id>, t: Id)
    requires Distinct(s)
    ensures Distinct(Without(s, t))
  {
    if s != [] {
      var w := Without(s[1..], t);
      DistinctWithout(s[1..], t);
      WithoutIn(s[1..], t);
      assert s[0] !in s[1..];
      assert forall i :: 0 < i < |[s[0]] + w| ==> ([s[0]] + w)[i] == w[i - 1];
    }
  }
}
