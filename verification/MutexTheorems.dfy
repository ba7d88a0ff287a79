/** Who owns the mutex, and how often it has taken it, counted from the calls. */
module MutexTheorems {
  import opened StableOrder
  import opened WaitQueue
  import opened MutexSpec

  /** A take succeeds exactly when the mutex is free or the caller's already, and the caller owns it afterwards; else
      the caller waits, or has given up at once and changed nothing. */
  lemma TakeOutcome(s: State, h: History, base: map<Id, int>, t: Id, wait: bool)
    requires Inv(s, h, base) && Enabled(s, Take(t, wait))
    ensures (forall x :: x in s.queue ==> x in s.prio) && (s.value <= 0 ==> s.owner.Thread? && s.owner.id in s.prio)
    ensures var (s', r) := TakeStep(s, t, wait);
      && (r == Taken <==> s'.owner == Thread(t)) && (r == Taken <==> s.owner == Nobody || s.owner == Thread(t))
      && (r == Waiting <==> t in s'.queue) && (r == Waiting ==> wait) && (r == TimedOut ==> !wait && s' == s)
      && (r != Taken ==> s'.owner == s.owner && s'.hold == s.hold)
      && (forall x :: x != t ==> (x in s'.queue <==> x in s.queue))
  {
    InvUse(s, h, base);
    if s.value <= 0 && s.owner != Thread(t) && wait {
      var prio := TakeStep(s, t, wait).0.prio;
      EnqueueIn(s.flag, s.queue, t, prio);
    }
  }

  /** A release succeeds exactly when the caller owns the mutex; else nothing changes. A thread that times out waits no
      more, and nothing else changes. */
  lemma ReleaseOutcome(s: State, h: History, base: map<Id, int>, t: Id)
    requires Inv(s, h, base) && t in s.prio
    ensures forall x :: x in s.queue ==> x in s.prio
    ensures var (s', ok) := ReleaseStep(s, t); (ok <==> s.owner == Thread(t)) && (!ok ==> s' == s)
    ensures var s' := ExpireStep(s, t);
      t !in s'.queue && s'.(queue := s.queue) == s && forall x :: x != t ==> (x in s'.queue <==> x in s.queue)
  {
    InvUse(s, h, base);
    WithoutIn(s.queue, t);
  }

  predicate IsTake(e: Event, t: Id) {
    e.Take? && e.t == t
  }

  predicate IsRelease(e: Event, t: Id) {
    e.Release? && e.t == t
  }

  /** What is left of `d` takes of thread `t` after the events: each of its takes counts, each of its releases
      discounts. */
  function Balance(es: seq<Event>, t: Id, d: int): int {
    if es == [] then d else
      var n := |es| - 1;
      Balance(es[..n], t, d) + (if IsTake(es[n], t) then 1 else 0) - (if IsRelease(es[n], t) then 1 else 0)
  }

  /** Takes of the present owner since it got the mutex, less its releases; 0 for a free mutex. */
  ghost function Depth(flag: Flag, base: map<Id, int>, es: seq<Event>): int
    requires After(flag, base, es).Some?
  {
    var o := After(flag, base, es).value.0.owner;
    if es == [] || o.Nobody? then 0 else
      var n := |es| - 1;
      if After(flag, base, es[..n]).value.0.owner != o then 1
      else Balance([es[n]], o.id, Depth(flag, base, es[..n]))
  }

  /** What one event does to the owner and the count: a thread that owns the mutex keeps it until its count is 0. */
  lemma OwnerStep(s: State, h: History, base: map<Id, int>, e: Event)
    requires Inv(s, h, base) && Enabled(s, e)
    ensures var (s', _) := Step(s, h, base, e);
      match s.owner
      case Nobody => s'.owner.Thread? ==> IsTake(e, s'.owner.id) && s'.hold == 1
      case Thread(o) =>
        var d := Balance([e], o, s.hold);
        && (s'.owner == s.owner <==> d > 0) && d >= 0
        && (if d > 0 then s'.hold == d else s'.owner.Thread? ==> s'.hold == 1 && s'.owner.id in s.queue)
  {
    InvUse(s, h, base);
    if s.owner.Thread? { assert Balance([], s.owner.id, s.hold) == s.hold && [e][..0] == []; }
  }

  /** At the end of every run `hold` is the number of takes of the owner since it got the mutex, less its releases. */
  lemma {:induction false} HoldIsDepth(flag: Flag, base: map<Id, int>, es: seq<Event>)
    requires After(flag, base, es).Some?
    ensures After(flag, base, es).value.0.hold == Depth(flag, base, es)
  {
    if es != [] {
      var n := |es| - 1;
      HoldIsDepth(flag, base, es[..n]);
      var (s, h) := After(flag, base, es[..n]).value;
      OwnerStep(s, h, base, es[n]);
    }
  }

  /** Before each of the events some take is left. */
  ghost predicate NotYetReleased(mid: seq<Event>, t: Id, d: int) {
    mid == [] || (Balance(mid[..|mid| - 1], t, d) > 0 && NotYetReleased(mid[..|mid| - 1], t, d))
  }

  /** An owner keeps the mutex through all that others do, until it has released it as often as it has taken it, and
      no longer. */
  lemma KeptUntilReleased(flag: Flag, base: map<Id, int>, es: seq<Event>, mid: seq<Event>, t: Id)
    requires After(flag, base, es).Some? && After(flag, base, es + mid).Some?
    requires After(flag, base, es).value.0.owner == Thread(t) && NotYetReleased(mid, t, Depth(flag, base, es))
    ensures var s, d := After(flag, base, es + mid).value.0, Balance(mid, t, Depth(flag, base, es));
      (s.owner == Thread(t) <==> d > 0) && (d > 0 ==> s.hold == d)
  {
    HoldIsDepth(flag, base, es);
    HeldThrough(flag, base, es, mid, t, Depth(flag, base, es));
  }

  ghost predicate Holds(r: Option<(State, History)>, t: Id, d: int) {
    r.Some? && (r.value.0.owner == Thread(t) <==> d > 0) && (d > 0 ==> r.value.0.hold == d)
  }

  lemma {:induction false} HeldThrough(flag: Flag, base: map<Id, int>, es: seq<Event>, mid: seq<Event>, t: Id, d: int)
    requires Holds(After(flag, base, es), t, d) && d > 0 && After(flag, base, es + mid).Some?
    requires NotYetReleased(mid, t, d)
    ensures Holds(After(flag, base, es + mid), t, Balance(mid, t, d))
    decreases |mid|
  {
    if mid == [] {
      assert es + mid == es;
    } else {
      var n := |mid| - 1;
      AppendLast(es, mid);
      LastBalance(flag, base, es + mid[..n], mid[n], t);
      HeldThrough(flag, base, es, mid[..n], t, d);
      BalanceLast(mid, t, d);
    }
  }

  lemma AppendLast(es: seq<Event>, mid: seq<Event>)
    requires mid != []
    ensures es + mid == es + mid[..|mid| - 1] + [mid[|mid| - 1]]
  {
  }

  lemma LastBalance(flag: Flag, base: map<Id, int>, es: seq<Event>, e: Event, t: Id)
    requires After(flag, base, es + [e]).Some?
    ensures After(flag, base, es).Some?
    ensures forall d :: d > 0 && Holds(After(flag, base, es), t, d) ==>
      Holds(After(flag, base, es + [e]), t, Balance([e], t, d))
  {
    assert (es + [e])[..|es|] == es;
    var (s, h) := After(flag, base, es).value;
    OwnerStep(s, h, base, e);
  }

  lemma BalanceLast(mid: seq<Event>, t: Id, d: int)
    requires mid != []
    ensures Balance(mid, t, d) == Balance([mid[|mid| - 1]], t, Balance(mid[..|mid| - 1], t, d))
  {
    var e := mid[|mid| - 1];
    assert [e][..0] == [];
  }

  function Times(e: Event, n: nat): (es: seq<Event>)
    ensures |es| == n && forall i :: 0 <= i < n ==> es[i] == e
  {
    if n == 0 then [] else Times(e, n - 1) + [e]
  }

  /** The mutex has no waiting threads, and thread `t` holds it `d` times; nobody holds it if `d` is 0. */
  ghost predicate Alone(r: Option<(State, History)>, t: Id, d: int) {
    r.Some? && r.value.0.queue == [] && r.value.0.hold == d && r.value.0.owner == if d > 0 then Thread(t) else Nobody
  }

  /** A thread that takes a free mutex n times over gives it up with its n-th release, not before. */
  lemma {:induction false} NestedTakes(flag: Flag, base: map<Id, int>, es: seq<Event>, t: Id, n: nat, m: nat)
    requires After(flag, base, es).Some? && After(flag, base, es).value.0.owner == Nobody && t in base && m <= n
    ensures Alone(After(flag, base, es + Times(Take(t, true), n) + Times(Release(t), m)), t, n - m)
    decreases n + m
  {
    var takes, releases := Times(Take(t, true), n), Times(Release(t), m);
    if m > 0 {
      NestedTakes(flag, base, es, t, n, m - 1);
      var before := es + takes + Times(Release(t), m - 1);
      assert es + takes + releases == before + [Release(t)];
      LastEvent(flag, base, before, Release(t), t, n - m + 1);
    } else if n > 0 {
      NestedTakes(flag, base, es, t, n - 1, 0);
      var before := es + Times(Take(t, true), n - 1);
      assert before + Times(Release(t), 0) == before;
      assert es + takes + releases == before + [Take(t, true)];
      LastEvent(flag, base, before, Take(t, true), t, n - 1);
    } else {
      assert es + takes + releases == es;
      var (s, h) := After(flag, base, es).value;
      InvUse(s, h, base);
      SameEmpty(s.queue, h.arrivals);
    }
  }

  lemma LastEvent(flag: Flag, base: map<Id, int>, es: seq<Event>, e: Event, t: Id, d: nat)
    requires Alone(After(flag, base, es), t, d) && t in base && (e == Take(t, true) || (e == Release(t) && d > 0))
    ensures Alone(After(flag, base, es + [e]), t, if e.Take? then d + 1 else d - 1)
  {
    var (s, h) := After(flag, base, es).value;
    InvUse(s, h, base);
    AfterSnoc(flag, base, es, e, s, h);
    StepInv(s, h, base, e);
  }
}
