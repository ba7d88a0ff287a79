/** The list of threads waiting on an IPC object (rt-thread/src/ipc.c), in arrival order or by priority.
    A smaller priority number is more urgent. */
module WaitQueue {
  import opened StableOrder

  datatype Flag = Fifo | Prio

  /** The queue once `t` has been suspended on it. */
  ghost function Enqueue(flag: Flag, q: seq<Id>, t: Id, prio: map<Id, int>): seq<Id>
    requires t in prio && forall x :: x in q ==> x in prio
  {
    match flag
    case Fifo => q + [t]
    case Prio => StableInsert(q, t, prio)
  }

  /** Order of service of the threads that wait: `arrivals` lists them first come first. */
  ghost function Arrange(flag: Flag, arrivals: seq<Id>, prio: map<Id, int>): (q: seq<Id>)
    requires forall x :: x in arrivals ==> x in prio
    ensures forall x :: x in q ==> x in arrivals
  {
    if arrivals == [] then [] else
      var n := |arrivals| - 1;
      var q := Arrange(flag, arrivals[..n], prio);
      EnqueueIn(flag, q, arrivals[n], prio);
      Enqueue(flag, q, arrivals[n], prio)
  }

  lemma EnqueueIn(flag: Flag, q: seq<Id>, t: Id, prio: map<Id, int>)
    requires t in prio && forall x :: x in q ==> x in prio
    ensures forall x :: x in Enqueue(flag, q, t, prio) <==> x == t || x in q
  {
    InsertIn(q, t, prio);
  }

  lemma {:induction false} InsertIn(q: seq<Id>, t: Id, prio: map<Id, int>)
    requires t in prio && forall x :: x in q ==> x in prio
    ensures forall x :: x in StableInsert(q, t, prio) <==> x == t || x in q
  {
    if q != [] {
      assert q == [q[0]] + q[1..];
      InsertIn(q[1..], t, prio);
    }
  }

  /** A thread that is in the queue already is in it twice then. */
  lemma EnqueueTwice(flag: Flag, q: seq<Id>, t: Id, prio: map<Id, int>)
    requires t in prio && t in q && forall x :: x in q ==> x in prio
    ensures !Distinct(Enqueue(flag, q, t, prio))
  {
    match flag
    case Fifo =>
      var i :| 0 <= i < |q| && q[i] == t;
      assert (q + [t])[i] == (q + [t])[|q|];
    case Prio => InsertTwice(q, t, prio);
  }

  lemma {:induction false} InsertTwice(q: seq<Id>, t: Id, prio: map<Id, int>)
    requires t in prio && t in q && forall x :: x in q ==> x in prio
    ensures !Distinct(StableInsert(q, t, prio))
  {
    var r := StableInsert(q, t, prio);
    if prio[t] < prio[q[0]] {
      var i :| 0 <= i < |q| && q[i] == t;
      assert r[0] == r[i + 1];
    } else {
      assert r[1..] == StableInsert(q[1..], t, prio);
      InsertIn(q[1..], t, prio);
      if q[0] == t {
        assert t in r[1..];
        var i :| 0 <= i < |r[1..]| && r[1..][i] == t;
        assert r[0] == r[i + 1];
      } else {
        assert q == [q[0]] + q[1..];
        InsertTwice(q[1..], t, prio);
        var i, j :| 0 <= i < j < |r[1..]| && r[1..][i] == r[1..][j];
        assert r[i + 1] == r[j + 1];
      }
    }
  }

  lemma {:induction false} ArrangeIn(flag: Flag, arrivals: seq<Id>, prio: map<Id, int>)
    requires forall x :: x in arrivals ==> x in prio
    ensures forall x :: x in Arrange(flag, arrivals, prio) <==> x in arrivals
  {
    if arrivals != [] {
      var n := |arrivals| - 1;
      ArrangeIn(flag, arrivals[..n], prio);
      EnqueueIn(flag, Arrange(flag, arrivals[..n], prio), arrivals[n], prio);
      assert arrivals == arrivals[..n] + [arrivals[n]];
    }
  }

  lemma {:induction false} ArrangeOrder(flag: Flag, arrivals: seq<Id>, prio: map<Id, int>)
    requires Distinct(arrivals) && forall x :: x in arrivals ==> x in prio
    ensures Distinct(Arrange(flag, arrivals, prio))
    ensures flag == Prio ==> Sorted(Arrange(flag, arrivals, prio), prio)
  {
    if arrivals != [] {
      var n := |arrivals| - 1;
      var q := Arrange(flag, arrivals[..n], prio);
      ArrangeOrder(flag, arrivals[..n], prio);
      ArrangeIn(flag, arrivals[..n], prio);
      assert arrivals[n] !in arrivals[..n];
      if flag == Prio {
        InsertSorted(q, arrivals[n], prio);
        InsertDistinct(q, arrivals[n], prio);
      }
    }
  }

  /** First come first served: the queue is the arrivals. */
  lemma {:induction false} ArrangeFifo(arrivals: seq<Id>, prio: map<Id, int>)
    requires forall x :: x in arrivals ==> x in prio
    ensures Arrange(Fifo, arrivals, prio) == arrivals
  {
    if arrivals != [] {
      ArrangeFifo(arrivals[..|arrivals| - 1], prio);
    }
  }

  /** `arrivals[k]` is the most urgent of the waiting threads, and the first of these to come. */
  ghost predicate FirstUrgent(arrivals: seq<Id>, prio: map<Id, int>, k: int)
    requires forall x :: x in arrivals ==> x in prio
  {
    && 0 <= k < |arrivals|
    && (forall j :: 0 <= j < k ==> prio[arrivals[k]] < prio[arrivals[j]])
    && (forall j :: k <= j < |arrivals| ==> prio[arrivals[k]] <= prio[arrivals[j]])
  }

  /** By priority: the head of the queue is the most urgent thread, the longest waiting among equals. */
  lemma {:induction false} HeadFirstUrgent(arrivals: seq<Id>, prio: map<Id, int>) returns (k: nat)
    requires arrivals != [] && forall x :: x in arrivals ==> x in prio
    ensures FirstUrgent(arrivals, prio, k)
    ensures Arrange(Prio, arrivals, prio) != [] && Arrange(Prio, arrivals, prio)[0] == arrivals[k]
  {
    var n := |arrivals| - 1;
    if n == 0 {
      k := 0;
    } else {
      k := HeadFirstUrgent(arrivals[..n], prio);
      if prio[arrivals[n]] < prio[arrivals[k]] { k := n; }
    }
  }

  /** A thread that leaves the queue leaves the order of the others as if it had never come. */
  lemma {:induction false} ArrangeWithout(flag: Flag, arrivals: seq<Id>, prio: map<Id, int>, t: Id)
    requires Distinct(arrivals) && forall x :: x in arrivals ==> x in prio
    ensures forall x :: x in Without(arrivals, t) ==> x in prio
    ensures Without(Arrange(flag, arrivals, prio), t) == Arrange(flag, Without(arrivals, t), prio)
  {
    WithoutIn(arrivals, t);
    if arrivals != [] {
      var n := |arrivals| - 1;
      var first, x := arrivals[..n], arrivals[n];
      var q := Arrange(flag, first, prio);
      ArrangeWithout(flag, first, prio, t);
      ArrangeIn(flag, first, prio);
      ArrangeOrder(flag, first, prio);
      assert arrivals == first + [x];
      WithoutSnoc(first, x, t);
      if x == t {
        WithoutIn(first, t);
        EnqueueWithoutSelf(flag, q, t, prio);
      } else {
        EnqueueWithout(flag, q, x, prio, t);
        ArrangeSnoc(flag, Without(first, t), x, prio);
      }
    }
  }

  lemma ArrangeSnoc(flag: Flag, arrivals: seq<Id>, x: Id, prio: map<Id, int>)
    requires x in prio && forall y :: y in arrivals ==> y in prio
    ensures Arrange(flag, arrivals + [x], prio) == Enqueue(flag, Arrange(flag, arrivals, prio), x, prio)
  {
    var a := arrivals + [x];
    assert a[..|a| - 1] == arrivals && a[|a| - 1] == x;
  }

  lemma {:induction false} WithoutSnoc(s: seq<Id>, x: Id, t: Id)
    ensures Without(s + [x], t) == if x == t then Without(s, t) else Without(s, t) + [x]
  {
    if s == [] {
      assert s + [x] == [x] && [x][1..] == [];
    } else {
      assert (s + [x])[1..] == s[1..] + [x];
      WithoutSnoc(s[1..], x, t);
    }
  }

  lemma EnqueueWithoutSelf(flag: Flag, q: seq<Id>, t: Id, prio: map<Id, int>)
    requires t in prio && t !in q && forall x :: x in q ==> x in prio
    ensures Without(Enqueue(flag, q, t, prio), t) == q
  {
    WithoutSnoc(q, t, t);
    WithoutIn(q, t);
    InsertWithout(q, t, prio);
  }

  lemma EnqueueWithout(flag: Flag, q: seq<Id>, x: Id, prio: map<Id, int>, t: Id)
    requires x in prio && x != t && x !in q && (forall y :: y in q ==> y in prio) && (flag == Prio ==> Sorted(q, prio))
    ensures forall y :: y in Without(q, t) ==> y in prio
    ensures Without(Enqueue(flag, q, x, prio), t) == Enqueue(flag, Without(q, t), x, prio)
  {
    WithoutIn(q, t);
    WithoutSnoc(q, x, t);
    if flag == Prio { InsertWithoutOther(q, x, prio, t); }
  }

  lemma {:induction false} InsertWithoutOther(q: seq<Id>, x: Id, prio: map<Id, int>, t: Id)
    requires x in prio && x != t && Sorted(q, prio)
    ensures forall y :: y in Without(q, t) ==> y in prio
    ensures Without(StableInsert(q, x, prio), t) == StableInsert(Without(q, t), x, prio)
  {
    WithoutIn(q, t);
    if q == [] {
    } else if prio[x] < prio[q[0]] {
      assert ([x] + q)[1..] == q;
      var w := Without(q, t);
      if w != [] {
        assert w[0] in w && w[0] in q;
        assert prio[q[0]] <= prio[w[0]];
      }
    } else {
      var r := StableInsert(q, x, prio);
      assert Sorted(q[1..], prio);
      assert r[1..] == StableInsert(q[1..], x, prio);
      InsertWithoutOther(q[1..], x, prio, t);
      WithoutIn(q[1..], t);
    }
  }

  /** Priorities of other threads do not matter. */
  lemma {:induction false} InsertFrame(q: seq<Id>, t: Id, prio: map<Id, int>, prio': map<Id, int>)
    requires t in prio && t in prio' && prio[t] == prio'[t]
    requires forall x :: x in q ==> x in prio && x in prio' && prio[x] == prio'[x]
    ensures StableInsert(q, t, prio) == StableInsert(q, t, prio')
  {
    if q != [] { InsertFrame(q[1..], t, prio, prio'); }
  }

  /** Before the first less urgent thread, in any list. */
  lemma {:induction false} InsertBefore(q: seq<Id>, t: Id, prio: map<Id, int>, n: nat)
    requires t in prio && (forall x :: x in q ==> x in prio) && n <= |q|
    requires (forall i :: 0 <= i < n ==> prio[q[i]] <= prio[t]) && (n < |q| ==> prio[t] < prio[q[n]])
    ensures StableInsert(q, t, prio) == q[..n] + [t] + q[n..]
  {
    if n > 0 {
      InsertBefore(q[1..], t, prio, n - 1);
      assert q[..n] == [q[0]] + q[1..][..n - 1] && q[n..] == q[1..][n - 1..];
    }
  }

  /** rt_ipc_list_suspend: the place of `t` in the list, which a change of priorities may have left unsorted. */
  method Suspend(flag: Flag, q: seq<Id>, t: Id, prio: map<Id, int>) returns (r: seq<Id>)
    requires t in prio && forall x :: x in q ==> x in prio
    ensures r == Enqueue(flag, q, t, prio)
  {
    match flag
    case Fifo => r := q + [t];
    case Prio =>
      var n := 0;
      while n < |q| && prio[t] >= prio[q[n]]
        invariant 0 <= n <= |q| && forall i :: 0 <= i < n ==> prio[q[i]] <= prio[t]
      {
        n := n + 1;
      }
      InsertBefore(q, t, prio, n);
      r := q[..n] + [t] + q[n..];
  }

  /** A list of waiting threads. A list by priority need not be sorted: priorities change while threads wait. */
  ghost predicate QueueOk(q: seq<Id>, prio: map<Id, int>) {
    Distinct(q) && forall t :: t in q ==> t in prio
  }

  lemma Joined(flag: Flag, q: seq<Id>, t: Id, prio: map<Id, int>)
    requires QueueOk(q, prio) && t in prio && t !in q
    ensures var r := Enqueue(flag, q, t, prio);
      QueueOk(r, prio) && (forall x :: x in r <==> x == t || x in q) && r != []
  {
    EnqueueIn(flag, q, t, prio);
    InsertDistinct(q, t, prio);
    assert t in Enqueue(flag, q, t, prio);
  }

  lemma Left(q: seq<Id>, prio: map<Id, int>)
    requires q != [] && QueueOk(q, prio)
    ensures QueueOk(q[1..], prio) && q[0] !in q[1..] && forall x :: x in q <==> x == q[0] || x in q[1..]
  {
    assert q == [q[0]] + q[1..];
  }

  lemma LeftAny(q: seq<Id>, t: Id, prio: map<Id, int>)
    requires QueueOk(q, prio)
    ensures QueueOk(Without(q, t), prio) && forall x :: x in Without(q, t) <==> x in q && x != t
  {
    WithoutIn(q, t);
    DistinctWithout(q, t);
  }

  /** rt_list_remove of a thread's node. */
  method Unlink(q: seq<Id>, t: Id) returns (r: seq<Id>)
    requires Distinct(q) && t in q
    ensures r == Without(q, t)
  {
    var i := 0;
    while q[i] != t
      invariant i < |q| && t !in q[..i]
      decreases |q| - i
    {
      i := i + 1;
    }
    WithoutAt(q, i);
    r := q[..i] + q[i + 1..];
  }
}
