/** The mutex of rt-thread/src/ipc.c with priority inheritance: one step for each section that runs with
    interrupts disabled, and what every run keeps. */
module MutexSpec {
  import opened StableOrder
  import opened WaitQueue

  datatype Owner = Nobody | Thread(id: Id)

  /** struct rt_mutex and the current priorities of all threads. */
  datatype State = State(
    flag: Flag,
    value: int,
    owner: Owner,
    original: int,
    hold: int,
    queue: seq<Id>,
    prio: map<Id, int>)

  datatype Outcome = Taken | TimedOut | Waiting

  datatype Event = Take(t: Id, wait: bool) | Release(t: Id) | Expire(t: Id)

  /** rt_mutex_init */
  function Init(flag: Flag, base: map<Id, int>): State {
    State(flag, 1, Nobody, 0xff, 0, [], base)
  }

  /** rt_thread_control, RT_THREAD_CTRL_CHANGE_PRIORITY, as far as the mutex goes. */
  function SetPriority(prio: map<Id, int>, t: Id, p: int): map<Id, int> {
    prio[t := p]
  }

  /** rt_mutex_take up to the point where the thread goes on or is suspended. */
  ghost function TakeStep(s: State, t: Id, wait: bool): (State, Outcome)
    requires t in s.prio && (forall x :: x in s.queue ==> x in s.prio)
    requires s.value <= 0 ==> s.owner.Thread? && s.owner.id in s.prio
  {
    if s.owner == Thread(t) then (s.(hold := s.hold + 1), Taken)
    else if s.value > 0 then
      (s.(value := s.value - 1, owner := Thread(t), original := s.prio[t], hold := s.hold + 1), Taken)
    else if !wait then (s, TimedOut)
    else
      var o := s.owner.id;
      var prio := if s.prio[t] < s.prio[o] then SetPriority(s.prio, o, s.prio[t]) else s.prio;
      (s.(prio := prio, queue := Enqueue(s.flag, s.queue, t, prio)), Waiting)
  }

  /** rt_mutex_release; false is -RT_ERROR. */
  function ReleaseStep(s: State, t: Id): (State, bool)
    requires forall x :: x in s.queue ==> x in s.prio
  {
    if s.owner != Thread(t) then (s, false)
    else if s.hold != 1 then (s.(hold := s.hold - 1), true)
    else
      var prio := SetPriority(s.prio, t, s.original);
      if s.queue != [] then
        var w := s.queue[0];
        (s.(prio := prio, owner := Thread(w), original := prio[w], queue := s.queue[1..]), true)
      else
        (s.(prio := prio, hold := 0, value := s.value + 1, owner := Nobody, original := 0xff), true)
  }

  /** rt_thread_timeout of a thread waiting for the mutex. */
  ghost function ExpireStep(s: State, t: Id): State {
    s.(queue := Without(s.queue, t))
  }

  // ---------- runs ----------

  /** What a run remembers: the waiting threads as they came, and all that came to wait since the
      present owner got the mutex. */
  datatype History = History(arrivals: seq<Id>, asked: seq<Id>)

  /** Priority of the most urgent of `o` and the threads in `asked`. */
  function Lead(base: map<Id, int>, o: Id, asked: seq<Id>): int
    requires o in base && forall x :: x in asked ==> x in base
  {
    if asked == [] then base[o] else
      var n := |asked| - 1;
      var l := Lead(base, o, asked[..n]);
      if base[asked[n]] < l then base[asked[n]] else l
  }

  lemma {:induction false} LeadIsMin(base: map<Id, int>, o: Id, asked: seq<Id>)
    requires o in base && forall x :: x in asked ==> x in base
    ensures Lead(base, o, asked) <= base[o]
    ensures forall x :: x in asked ==> Lead(base, o, asked) <= base[x]
    ensures Lead(base, o, asked) == base[o] || exists x :: x in asked && Lead(base, o, asked) == base[x]
  {
    if asked != [] {
      var n := |asked| - 1;
      LeadIsMin(base, o, asked[..n]);
      assert asked == asked[..n] + [asked[n]] && asked[n] in asked;
    }
  }

  /** `base` gives each thread's priority while it holds no mutex. */
  ghost predicate Inv(s: State, h: History, base: map<Id, int>) {
    && s.value == (if s.owner.Nobody? then 1 else 0)
    && (s.owner.Nobody? <==> s.hold == 0) && s.hold >= 0
    && Distinct(h.arrivals) && (forall x :: x in h.arrivals ==> x in base)
    && s.queue == Arrange(s.flag, h.arrivals, base)
    && (s.owner.Nobody? ==> s.prio == base && h.arrivals == [])
    && (s.owner.Thread? ==> OwnerInv(s, h, base))
  }

  ghost predicate OwnerInv(s: State, h: History, base: map<Id, int>)
    requires s.owner.Thread? && forall x :: x in h.arrivals ==> x in base
  {
    var o := s.owner.id;
    && o in base && o !in h.arrivals && s.original == base[o]
    && (forall x :: x in h.asked ==> x in base)
    && s.prio == base[o := Lead(base, o, h.asked)]
    && (s.flag == Prio ==> forall x :: x in h.arrivals ==> s.prio[o] <= base[x])
  }

  ghost predicate Enabled(s: State, e: Event) {
    match e
    case Take(t, _) => t in s.prio && t !in s.queue
    case Release(t) => t in s.prio && t !in s.queue
    case Expire(t) => t in s.queue
  }

  ghost function Step(s: State, h: History, base: map<Id, int>, e: Event): (State, History)
    requires Inv(s, h, base) && Enabled(s, e)
  {
    InvUse(s, h, base);
    match e
    case Take(t, wait) =>
      var (s', r) := TakeStep(s, t, wait);
      (s', if r == Waiting then History(h.arrivals + [t], h.asked + [t])
           else if s.owner.Nobody? then History([], []) else h)
    case Release(t) =>
      var (s', ok) := ReleaseStep(s, t);
      (s', if s'.owner == s.owner then h
           else if s'.owner.Nobody? then History([], [])
           else History(Without(h.arrivals, s'.owner.id), []))
    case Expire(t) => (ExpireStep(s, t), History(Without(h.arrivals, t), h.asked))
  }

  lemma InvUse(s: State, h: History, base: map<Id, int>)
    requires Inv(s, h, base)
    ensures s.prio.Keys == base.Keys
    ensures forall x :: x in s.queue <==> x in h.arrivals
    ensures forall x :: x in s.queue ==> x in s.prio && s.prio[x] == base[x]
    ensures Distinct(s.queue) && (s.flag == Prio ==> Sorted(s.queue, s.prio))
  {
    ArrangeIn(s.flag, h.arrivals, base);
    ArrangeOrder(s.flag, h.arrivals, base);
  }

  lemma TakeInv(s: State, h: History, base: map<Id, int>, t: Id, wait: bool)
    requires Inv(s, h, base) && Enabled(s, Take(t, wait))
    ensures var (s', h') := Step(s, h, base, Take(t, wait)); Inv(s', h', base)
  {
    InvUse(s, h, base);
    var (s', r) := TakeStep(s, t, wait);
    if r == Waiting { WaitInv(s, h, base, t, s'); }
  }

  lemma WaitInv(s: State, h: History, base: map<Id, int>, t: Id, s': State)
    requires Inv(s, h, base) && Enabled(s, Take(t, true)) && s.owner.Thread? && s.owner != Thread(t)
    requires s.owner.id in s.prio && (forall x :: x in s.queue ==> x in s.prio) && s' == TakeStep(s, t, true).0
    ensures Inv(s', History(h.arrivals + [t], h.asked + [t]), base)
  {
    InvUse(s, h, base);
    var a, k := h.arrivals + [t], h.asked + [t];
    assert a[..|h.arrivals|] == h.arrivals && k[..|h.asked|] == h.asked;
    assert s.prio[t] == base[t];
    if s.flag == Prio { InsertFrame(s.queue, t, s'.prio, base); }
    assert Distinct(a);
  }

  lemma ReleaseInv(s: State, h: History, base: map<Id, int>, t: Id)
    requires Inv(s, h, base) && Enabled(s, Release(t))
    ensures var (s', h') := Step(s, h, base, Release(t)); Inv(s', h', base)
  {
    InvUse(s, h, base);
    if s.owner == Thread(t) && s.hold == 1 {
      assert SetPriority(s.prio, t, s.original) == base;
      SameEmpty(s.queue, h.arrivals);
      if s.queue != [] {
        HandOver(s, h, base);
      }
    }
  }

  lemma SameEmpty(q: seq<Id>, a: seq<Id>)
    requires forall x :: x in q <==> x in a
    ensures q == [] <==> a == []
  {
    assert q != [] ==> q[0] in a;
    assert a != [] ==> a[0] in q;
  }

  /** The waiting threads once the first one has become the owner. */
  lemma HandOver(s: State, h: History, base: map<Id, int>)
    requires Inv(s, h, base) && s.queue != []
    ensures var w := s.queue[0]; var rest := Without(h.arrivals, w);
      && w in base && w !in rest && Distinct(rest) && (forall x :: x in rest ==> x in base)
      && s.queue[1..] == Arrange(s.flag, rest, base)
      && (s.flag == Prio ==> forall x :: x in rest ==> base[w] <= base[x])
    ensures base == base[s.queue[0] := Lead(base, s.queue[0], [])]
  {
    InvUse(s, h, base);
    var w := s.queue[0];
    WithoutIn(h.arrivals, w);
    DistinctWithout(h.arrivals, w);
    WithoutAt(s.queue, 0);
    assert s.queue[..0] + s.queue[1..] == s.queue[1..];
    ArrangeWithout(s.flag, h.arrivals, base, w);
    if s.flag == Prio {
      forall x | x in Without(h.arrivals, w) ensures base[w] <= base[x] {
        var i :| 0 <= i < |s.queue| && s.queue[i] == x;
      }
    }
  }

  lemma ExpireInv(s: State, h: History, base: map<Id, int>, t: Id)
    requires Inv(s, h, base) && Enabled(s, Expire(t))
    ensures var (s', h') := Step(s, h, base, Expire(t)); Inv(s', h', base)
  {
    InvUse(s, h, base);
    WithoutIn(h.arrivals, t);
    DistinctWithout(h.arrivals, t);
    ArrangeWithout(s.flag, h.arrivals, base, t);
  }

  lemma StepInv(s: State, h: History, base: map<Id, int>, e: Event)
    requires Inv(s, h, base) && Enabled(s, e)
    ensures var (s', h') := Step(s, h, base, e); Inv(s', h', base)
  {
    match e
    case Take(t, wait) => TakeInv(s, h, base, t, wait);
    case Release(t) => ReleaseInv(s, h, base, t);
    case Expire(t) => ExpireInv(s, h, base, t);
  }

  datatype Option<T> = None | Some(value: T)

  /** State and history after the events `es`, if each of them can happen in turn. No run leaves the
      invariant. */
  ghost function After(flag: Flag, base: map<Id, int>, es: seq<Event>): (r: Option<(State, History)>)
    ensures r.Some? ==> Inv(r.value.0, r.value.1, base) && r.value.0.flag == flag
  {
    if es == [] then Some((Init(flag, base), History([], []))) else
      var n := |es| - 1;
      match After(flag, base, es[..n])
      case None => None
      case Some((s, h)) =>
        if Enabled(s, es[n]) then StepInv(s, h, base, es[n]); Some(Step(s, h, base, es[n])) else None
  }

  // ---------- what follows for every run ----------

  /** At the end of every run: the mutex is free exactly when nobody owns it and nobody holds it; the owner
      does not wait; threads wait only for an owned mutex; the queue is the threads that wait, in arrival
      order or stably sorted by priority; and a PRIO owner is at least as urgent as every waiter. */
  lemma RunConsistent(flag: Flag, base: map<Id, int>, es: seq<Event>)
    requires After(flag, base, es).Some?
    ensures var (s, h) := After(flag, base, es).value;
      && (s.value == 1 <==> s.owner.Nobody?) && (s.value == 0 <==> s.owner.Thread?) &&
        (s.hold == 0 <==> s.owner.Nobody?)
      && (s.owner.Thread? ==> s.owner.id !in s.queue)
      && (s.queue != [] ==> s.owner.Thread?)
      && (flag == Fifo ==> s.queue == h.arrivals)
      && (flag == Prio ==> Sorted(s.queue, s.prio))
      && (flag == Prio && s.owner.Thread? ==> forall w :: w in s.queue ==> s.prio[s.owner.id] <= s.prio[w])
  {
    var (s, h) := After(flag, base, es).value;
    InvUse(s, h, base);
    ArrangeFifo(h.arrivals, base);
  }

  /** Inheritance is exact and fully undone: at the end of every run each thread has its own priority, except
      an owner, which has the most urgent among its own and those that came to wait since it got the mutex. */
  lemma InheritanceExact(flag: Flag, base: map<Id, int>, es: seq<Event>)
    requires After(flag, base, es).Some?
    ensures var (s, h) := After(flag, base, es).value;
      match s.owner
      case Nobody => s.prio == base
      case Thread(o) =>
        && (forall t :: t in base && t != o ==> t in s.prio && s.prio[t] == base[t])
        && o in base && o in s.prio && (forall x :: x in h.asked ==> x in base && s.prio[o] <= base[x]) &&
          s.prio[o] <= base[o]
        && (s.prio[o] == base[o] || exists x :: x in h.asked && s.prio[o] == base[x])
  {
    var (s, h) := After(flag, base, es).value;
    if s.owner.Thread? { LeadIsMin(base, s.owner.id, h.asked); }
  }

  /** The full release gives the releasing thread the priority it had when it got the mutex, and changes no
      other priority. */
  lemma ReleaseRestores(s: State, h: History, base: map<Id, int>)
    requires Inv(s, h, base) && s.owner.Thread? && s.hold == 1
    ensures s.owner.id !in s.queue
    ensures var (s', ok) := ReleaseStep(s, s.owner.id);
      ok && s'.prio == s.prio[s.owner.id := s.original] == base
  {
    InvUse(s, h, base);
  }

  /** By priority, the mutex goes to the most urgent waiter, the longest waiting one among equals. */
  lemma HandOffPrio(s: State, h: History, base: map<Id, int>) returns (k: nat)
    requires Inv(s, h, base) && s.flag == Prio && s.owner.Thread? && s.hold == 1 && s.queue != []
    ensures FirstUrgent(h.arrivals, base, k)
    ensures forall x :: x in s.queue ==> x in s.prio
    ensures ReleaseStep(s, s.owner.id).0.owner == Thread(h.arrivals[k])
  {
    InvUse(s, h, base);
    k := HeadFirstUrgent(h.arrivals, base);
  }

  /** In arrival order, the new owner is not given the priority of the others: it is at least as urgent as
      all of them exactly when it happened to be so already. */
  lemma HandOffFifo(s: State, h: History, base: map<Id, int>)
    requires Inv(s, h, base) && s.flag == Fifo && s.owner.Thread? && s.hold == 1 && s.queue != []
    ensures forall x :: x in s.queue ==> x in s.prio
    ensures s.queue == h.arrivals
    ensures var (s', _) := ReleaseStep(s, s.owner.id);
      && s'.owner == Thread(h.arrivals[0]) && s'.owner.id in s'.prio && (forall w :: w in s'.queue ==> w in s'.prio)
      && ((forall w :: w in s'.queue ==> s'.prio[s'.owner.id] <= s'.prio[w])
          <==> (forall w :: w in h.arrivals ==> base[h.arrivals[0]] <= base[w]))
  {
    InvUse(s, h, base);
    ArrangeFifo(h.arrivals, base);
    var (s', _) := ReleaseStep(s, s.owner.id);
    assert s'.prio == base;
    assert h.arrivals == [h.arrivals[0]] + s'.queue;
  }

  lemma AfterSnoc(flag: Flag, base: map<Id, int>, es: seq<Event>, e: Event, s: State, h: History)
    requires After(flag, base, es) == Some((s, h)) && Enabled(s, e)
    ensures After(flag, base, es + [e]) == Some(Step(s, h, base, e))
  {
    assert (es + [e])[..|es|] == es;
  }

  /** Thread 1 owns the mutex and 2 waits for it. */
  lemma OneWaiting(base: map<Id, int>)
    requires base == map[1 := 10, 2 := 20, 3 := 5]
    ensures After(Fifo, base, [Take(1, true), Take(2, true)])
      == Some((State(Fifo, 0, Thread(1), 10, 1, [2], base), History([2], [2])))
  {
    var none: seq<Id>, two: seq<Id> := [], [2];
    assert After(Fifo, base, []) == Some((Init(Fifo, base), History([], [])));
    AfterSnoc(Fifo, base, [], Take(1, true), Init(Fifo, base), History([], []));
    assert [] + [Take(1, true)] == [Take(1, true)];
    assert none + [2] == two;
    AfterSnoc(Fifo, base, [Take(1, true)], Take(2, true), State(Fifo, 0, Thread(1), 10, 1, [], base), History([], []));
    assert [Take(1, true)] + [Take(2, true)] == [Take(1, true), Take(2, true)];
  }

  /** Thread 1 owns the mutex; 2 and then 3 wait for it in arrival order. */
  lemma TwoWaiting(base: map<Id, int>)
    requires base == map[1 := 10, 2 := 20, 3 := 5]
    ensures After(Fifo, base, [Take(1, true), Take(2, true), Take(3, true)])
      == Some((State(Fifo, 0, Thread(1), 10, 1, [2, 3], base[1 := 5]), History([2, 3], [2, 3])))
  {
    OneWaiting(base);
    var two: seq<Id> := [2];
    assert two + [3] == [2, 3];
    var es := [Take(1, true), Take(2, true)];
    AfterSnoc(Fifo, base, es, Take(3, true), State(Fifo, 0, Thread(1), 10, 1, two, base), History(two, two));
    assert es + [Take(3, true)] == [Take(1, true), Take(2, true), Take(3, true)];
  }

  /** A FIFO mutex can leave a thread of priority 20 owning the mutex a thread of priority 5 waits for. */
  lemma FifoInversion(base: map<Id, int>)
    requires base == map[1 := 10, 2 := 20, 3 := 5]
    ensures var r := After(Fifo, base, [Take(1, true), Take(2, true), Take(3, true), Release(1)]);
      r.Some? && r.value.0.owner == Thread(2) && r.value.0.queue == [3] && r.value.0.prio == base
  {
    TwoWaiting(base);
    var es := [Take(1, true), Take(2, true), Take(3, true)];
    AfterSnoc(Fifo, base, es, Release(1), State(Fifo, 0, Thread(1), 10, 1, [2, 3], base[1 := 5]),
      History([2, 3], [2, 3]));
    assert es + [Release(1)] == [Take(1, true), Take(2, true), Take(3, true), Release(1)];
    assert base[1 := 5][1 := 10] == base;
  }
}
