/** Round robin among threads of the same priority: how long a ready thread waits for its turn, whatever the other
    threads do, as long as none that is more urgent becomes ready and the scheduler is not locked. */
module RoundRobin {
  import opened StableOrder
  import opened WaitQueue
  import opened KernelSpec
  import K = KernelTheorems

  datatype Option<T> = None | Some(value: T)

  /** The ready list of the priority of `t`. */
  ghost function Queue(s: State, t: Id): seq<Id>
    requires t in s.threads
  {
    s.At(ReadyList(s.threads[t].prio))
  }

  /** The threads of `q` ahead of `t` have ticks left. */
  ghost predicate TicksAhead(threads: map<Id, Thread>, q: seq<Id>, t: Id) {
    q != [] && q[0] != t ==> q[0] in threads && threads[q[0]].remaining > 0 && TicksAhead(threads, q[1..], t)
  }

  /** `t` is in line: no more urgent thread runs or is ready, and those ahead of `t` have ticks left. The current
      thread may have stopped running and not been switched yet. Nothing is asked of yield flags, nor of `t` and
      those behind it. */
  ghost predicate InLine(s: State, t: Id, max: nat) {
    && Good(s) && s.current.Cur? && s.lock == 0 && t in s.threads && t in Queue(s, t) && s.threads[t].prio < max
    && (s.threads[s.current.id].stat == Running ==> s.threads[t].prio <= s.threads[s.current.id].prio)
    && (forall r: nat :: r < s.threads[t].prio ==> s.At(ReadyList(r)) == [])
    && TicksAhead(s.threads, Queue(s, t), t)
  }

  /** `t` waits for its turn: the current thread has ticks left too. */
  ghost predicate Waits(s: State, t: Id, max: nat) {
    InLine(s, t, max) && s.threads[s.current.id].remaining > 0
  }

  /** Ticks left to the threads of `q` before `t`. */
  ghost function Ahead(threads: map<Id, Thread>, q: seq<Id>, t: Id): nat {
    if q == [] || q[0] == t then 0
    else (if q[0] in threads then threads[q[0]].remaining else 0) + Ahead(threads, q[1..], t)
  }

  /** Ticks until `t` runs: those left to the current thread and to the threads ahead of `t`. */
  ghost function WaitTicks(s: State, t: Id): nat
    requires s.current.Cur? && s.current.id in s.threads && t in s.threads
  {
    if s.current.id == t then 0 else s.threads[s.current.id].remaining + Ahead(s.threads, Queue(s, t), t)
  }

  /** `x` is in `q` before `t`. */
  ghost predicate IsAhead(q: seq<Id>, x: Id, t: Id) {
    q != [] && q[0] != t && (q[0] == x || IsAhead(q[1..], x, t))
  }

  lemma {:induction false} AheadFrame(threads: map<Id, Thread>, q: seq<Id>, t: Id, threads': map<Id, Thread>)
    requires forall x :: x in q ==> x in threads && x in threads' && threads'[x].remaining == threads[x].remaining
    ensures Ahead(threads', q, t) == Ahead(threads, q, t)
    ensures TicksAhead(threads', q, t) <==> TicksAhead(threads, q, t)
  {
    if q != [] && q[0] != t { AheadFrame(threads, q[1..], t, threads'); }
  }

  /** Threads behind `t` do not count. */
  lemma {:induction false} AheadSnoc(threads: map<Id, Thread>, q: seq<Id>, t: Id, r: seq<Id>)
    requires t in q
    ensures Ahead(threads, q + r, t) == Ahead(threads, q, t)
    ensures TicksAhead(threads, q + r, t) <==> TicksAhead(threads, q, t)
  {
    if q[0] != t {
      assert (q + r)[1..] == q[1..] + r;
      AheadSnoc(threads, q[1..], t, r);
    }
  }

  /** A thread that leaves takes its ticks with it if it was ahead. */
  lemma {:induction false} AheadWithout(threads: map<Id, Thread>, q: seq<Id>, t: Id, x: Id)
    requires Distinct(q) && t in q && x != t && TicksAhead(threads, q, t)
    ensures t in Without(q, x) && TicksAhead(threads, Without(q, x), t)
    ensures IsAhead(q, x, t) ==> x in threads && threads[x].remaining > 0
    ensures Ahead(threads, Without(q, x), t) ==
      Ahead(threads, q, t) - if IsAhead(q, x, t) then threads[x].remaining else 0
  {
    WithoutIn(q, x);
    if q[0] == x {
      WithoutIn(q[1..], x);
      assert x !in q[1..];
    } else if q[0] != t {
      AheadWithout(threads, q[1..], t, x);
    }
  }

  // ---------- what an event does to the wait ----------

  /** The event names thread `t`. */
  predicate Names(e: K.Event, t: Id) {
    match e
    case Create(x, _, _) => x == t
    case StartUp(x) => x == t
    case Test(x) => x == t
    case Unlink(x) => x == t
    case Enlist(x) => x == t
    case Stop(x) => x == t
    case Wait(x, _, _) => x == t
    case Timeout(x) => x == t
    case ChangePriority(x, _) => x == t
    case Exit(x, _) => x == t
    case Remove(x) => x == t
    case Finish(x) => x == t
    case Mark(x) => x == t
    case Bury(x) => x == t
    case _ => false
  }

  /** The event can happen and breaks nothing, is not about `t`, makes no more urgent thread run or be ready, and
      does not lock the scheduler. */
  ghost predicate Mild(s: State, e: K.Event, t: Id, max: nat)
    requires t in s.threads
  {
    && K.Enabled(s, e, max) && K.Safe(s, e) && !Names(e, t) && !e.Enter?
    && (e.Enlist? || e.Timeout? ==> s.threads[t].prio <= s.threads[e.t].prio)
    && (e.ChangePriority? && (s.threads[e.t].stat == Ready || s.threads[e.t].stat == Running) ==>
      s.threads[t].prio <= e.prio)
  }

  /** The event takes a thread off the ready list of `t` that was ahead of it. */
  ghost predicate TakesAway(s: State, e: K.Event, t: Id)
    requires t in s.threads
  {
    (e.Unlink? || e.Stop? || e.ChangePriority? || e.Remove?) && IsAhead(Queue(s, t), e.t, t)
  }

  /** rt_schedule runs and the current thread gives way, although it has ticks left. */
  ghost predicate CutsShort(s: State, e: K.Event, t: Id)
    requires s.current.Cur? && s.current.id in s.threads && t in s.threads
  {
    (e.Reschedule? || e.Leave?) && GivesWay(s.threads[s.current.id], s.threads[t].prio)
  }

  /** Ticks that `t` need not wait for any more. */
  ghost function Loss(s: State, e: K.Event, t: Id): nat
    requires s.current.Cur? && s.current.id in s.threads && t in s.threads
  {
    if CutsShort(s, e, t) then s.threads[s.current.id].remaining
    else if TakesAway(s, e, t) && e.t in s.threads then s.threads[e.t].remaining
    else 0
  }

  /** How near the turn of `t` is: it still waits and `k` ticks are left, or none are left and it runs. */
  ghost predicate TicksLeft(s: State, t: Id, max: nat, k: int) {
    && s.current.Cur? && s.current.id in s.threads && t in s.threads && WaitTicks(s, t) == k
    && if s.current == Cur(t) then k == 0 else k > 0 && Waits(s, t, max)
  }

  lemma LineFacts(s: State, t: Id, max: nat)
    requires InLine(s, t, max)
    ensures s.current != Cur(t) && s.threads[t].stat == Ready && s.current.id !in Queue(s, t) && Distinct(Queue(s, t))
    ensures forall x :: x in Queue(s, t) ==>
      x in s.threads && s.threads[x].stat == Ready && s.threads[x].prio == s.threads[t].prio
    ensures !s.threads[s.current.id].place.ReadyList?
  {
    ReadyThreads(s);
    assert ListFits(s.threads, Queue(s, t), ReadyList(s.threads[t].prio));
    assert PlaceFits(s.current.id, s.threads[s.current.id], s.current, s.current.id in s.leaving);
  }

  /** From `s` to `s'` thread `x` has left the ready lists, those in `tail` have joined the list of `t`, and no more
      urgent list, nor the current thread, has changed in what matters to `t`. */
  ghost predicate Effect(s: State, s': State, t: Id, x: Id, tail: seq<Id>)
    requires s.current.Cur? && s.current.id in s.threads && t in s.threads
  {
    var c, p := s.current.id, s.threads[t].prio;
    && s'.current == s.current && s'.lock == s.lock && t in s'.threads && s'.threads[t].prio == p
    && c in s'.threads && s'.threads[c].remaining == s.threads[c].remaining
    && (s'.threads[c].stat == Running ==> p <= s'.threads[c].prio)
    && (forall r: nat :: r <= p ==>
          s'.At(ReadyList(r)) == Without(s.At(ReadyList(r)), x) + if r == p then tail else [])
    && (forall y :: y in s.threads && s.threads[y].stat == Ready ==>
          y in s'.threads && s'.threads[y].remaining == s.threads[y].remaining)
  }

  lemma EffectWait(s: State, s': State, t: Id, max: nat, x: Id, tail: seq<Id>)
    requires Waits(s, t, max) && Good(s') && x != t && Effect(s, s', t, x, tail)
    ensures TicksLeft(s', t, max,
      WaitTicks(s, t) - if IsAhead(Queue(s, t), x, t) && x in s.threads then s.threads[x].remaining else 0)
  {
    LineFacts(s, t, max);
    var q := Queue(s, t);
    var w := Without(q, x);
    AheadWithout(s.threads, q, t, x);
    WithoutIn(q, x);
    AheadFrame(s.threads, w, t, s'.threads);
    AheadSnoc(s'.threads, w, t, tail);
    forall r: nat | r < s.threads[t].prio ensures s'.At(ReadyList(r)) == [] { assert s.At(ReadyList(r)) == []; }
    assert Queue(s', t) == w + tail;
  }

  /** Taking a thread off its list, whichever that is. */
  lemma UnlinkedQueues(s: State, x: Id)
    requires Good(s) && x in s.threads
    ensures forall r: nat :: Unlinked(s, x).At(ReadyList(r)) == Without(s.At(ReadyList(r)), x)
  {
    forall r: nat ensures Unlinked(s, x).At(ReadyList(r)) == Without(s.At(ReadyList(r)), x) {
      assert ListFits(s.threads, s.At(ReadyList(r)), ReadyList(r));
      WithoutIn(s.At(ReadyList(r)), x);
    }
  }

  /** A thread that is in no ready list. */
  lemma NotInQueues(s: State, x: Id)
    requires Good(s) && x in s.threads && !s.threads[x].place.ReadyList?
    ensures forall r: nat :: Without(s.At(ReadyList(r)), x) == s.At(ReadyList(r)) && x !in s.At(ReadyList(r))
  {
    forall r: nat ensures Without(s.At(ReadyList(r)), x) == s.At(ReadyList(r)) && x !in s.At(ReadyList(r)) {
      assert ListFits(s.threads, s.At(ReadyList(r)), ReadyList(r));
      WithoutIn(s.At(ReadyList(r)), x);
    }
  }

  lemma {:induction false} NotAhead(q: seq<Id>, x: Id, t: Id)
    requires x !in q
    ensures !IsAhead(q, x, t)
  {
    if q != [] && q[0] != t {
      assert x !in q[1..];
      NotAhead(q[1..], x, t);
    }
  }

  lemma AddNothing(s: seq<Id>)
    ensures s + [] == s
  {
  }

  /** Events that take thread `x` off its list and link it into no ready list. */
  lemma LeaveEffect(s: State, e: K.Event, t: Id, max: nat)
    requires Waits(s, t, max) && Mild(s, e, t, max) && (e.Unlink? || e.Stop? || e.Remove? || e.Exit?)
    ensures Effect(s, K.Step(s, e, max), t, e.t, [])
  {
    LineFacts(s, t, max);
    UnlinkedMore(s, e.t, K.Step(s, e, max));
  }

  /** Only lists other than ready lists differ from those after taking `x` off its list. */
  lemma UnlinkedMore(s: State, x: Id, r: State)
    requires Good(s) && x in s.threads && forall p: nat :: r.At(ReadyList(p)) == Unlinked(s, x).At(ReadyList(p))
    ensures forall p: nat :: r.At(ReadyList(p)) == Without(s.At(ReadyList(p)), x) + []
  {
    UnlinkedQueues(s, x);
    forall p: nat ensures r.At(ReadyList(p)) == Without(s.At(ReadyList(p)), x) + [] {
      AddNothing(Without(s.At(ReadyList(p)), x));
    }
  }

  /** Events that change only threads in no ready list and link none there. */
  lemma QuietEffect(s: State, e: K.Event, t: Id, max: nat)
    requires Waits(s, t, max) && Mild(s, e, t, max)
    requires e.Create? || e.StartUp? || e.Test? || e.Finish? || e.Mark? || e.Bury? || e.Wait?
    ensures e.Create? || !s.threads[e.t].place.ReadyList?
    ensures Effect(s, K.Step(s, e, max), t, s.current.id, [])
  {
    LineFacts(s, t, max);
    if e.Wait? { SuspendOnGoodIff(s, e.t, e.w, e.flag); }
    SameQueues(s, s.current.id, K.Step(s, e, max));
  }

  lemma SameQueues(s: State, c: Id, r: State)
    requires Good(s) && c in s.threads && !s.threads[c].place.ReadyList?
    requires forall p: nat :: r.At(ReadyList(p)) == s.At(ReadyList(p))
    ensures forall p: nat :: r.At(ReadyList(p)) == Without(s.At(ReadyList(p)), c) + []
  {
    NotInQueues(s, c);
    forall p: nat ensures r.At(ReadyList(p)) == Without(s.At(ReadyList(p)), c) + [] {
      AddNothing(s.At(ReadyList(p)));
    }
  }

  /** Events that make thread `x` ready, or running if it is current. */
  lemma JoinEffect(s: State, e: K.Event, t: Id, max: nat)
    requires Waits(s, t, max) && Mild(s, e, t, max) && (e.Enlist? || e.Timeout?)
    ensures !s.threads[e.t].place.ReadyList?
    ensures var x := e.t;
      Effect(s, K.Step(s, e, max), t, x,
        if s.current != Cur(x) && s.threads[x].prio == s.threads[t].prio then [x] else [])
  {
    LineFacts(s, t, max);
    if e.Enlist? { assert Unlinked(s, e.t) == s; }
    WokenQueues(s, e.t);
  }

  /** The ready lists after a thread that is in none has been woken. */
  lemma WokenQueues(s: State, x: Id)
    requires Good(s) && x in s.threads && !s.threads[x].place.ReadyList?
    ensures var r := Wake(s, x);
      forall p: nat :: r.At(ReadyList(p)) ==
        Without(s.At(ReadyList(p)), x) + if s.current != Cur(x) && p == s.threads[x].prio then [x] else []
  {
    UnlinkedQueues(s, x);
    NotInQueues(s, x);
    var r := Wake(s, x);
    forall p: nat ensures r.At(ReadyList(p)) ==
      Without(s.At(ReadyList(p)), x) + if s.current != Cur(x) && p == s.threads[x].prio then [x] else []
    {
      AddNothing(s.At(ReadyList(p)));
      assert Unlinked(s, x).At(ReadyList(p)) == Without(s.At(ReadyList(p)), x);
    }
  }

  /** A change of priority moves a ready thread to the end of its new list. */
  lemma MoveEffect(s: State, x: Id, prio: nat, t: Id, max: nat)
    requires Waits(s, t, max) && Mild(s, K.ChangePriority(x, prio), t, max) && s.threads[x].stat == Ready
    ensures Effect(s, SetPriority(s, x, prio), t, x, if prio == s.threads[t].prio then [x] else [])
  {
    LineFacts(s, t, max);
    MovedQueues(s, x, prio);
    MovedFields(s, x, prio);
  }

  lemma MovedFields(s: State, x: Id, prio: nat)
    requires Good(s) && x in s.threads && s.threads[x].stat == Ready
    ensures var r := SetPriority(s, x, prio);
      && r.threads == s.threads[x := s.threads[x].(prio := prio, place := ReadyList(prio))]
      && r.current == s.current && r.lock == s.lock
  {
    assert PlaceFits(x, s.threads[x], s.current, x in s.leaving);
  }

  /** It changes no list otherwise. */
  lemma PriorityEffect(s: State, x: Id, prio: nat, t: Id, max: nat)
    requires Waits(s, t, max) && Mild(s, K.ChangePriority(x, prio), t, max) && s.threads[x].stat != Ready
    ensures Effect(s, SetPriority(s, x, prio), t, s.current.id, []) && !s.threads[x].place.ReadyList?
  {
    LineFacts(s, t, max);
    assert PlaceFits(x, s.threads[x], s.current, x in s.leaving);
    SameQueues(s, s.current.id, SetPriority(s, x, prio));
  }

  lemma MovedQueues(s: State, x: Id, prio: nat)
    requires Good(s) && x in s.threads && s.threads[x].stat == Ready
    ensures var r := SetPriority(s, x, prio);
      forall p: nat :: r.At(ReadyList(p)) == Without(s.At(ReadyList(p)), x) + if p == prio then [x] else []
  {
    UnlinkedQueues(s, x);
    forall p: nat ensures SetPriority(s, x, prio).At(ReadyList(p)) ==
      Without(s.At(ReadyList(p)), x) + if p == prio then [x] else []
    {
      AddNothing(Without(s.At(ReadyList(p)), x));
      assert Unlinked(s, x).At(ReadyList(p)) == Without(s.At(ReadyList(p)), x);
    }
  }

  /** The current thread gives way to the first in the queue. */
  lemma GivesWayTo(s: State, t: Id, max: nat)
    requires InLine(s, t, max)
    ensures Schedule(s, max) ==
      if GivesWay(s.threads[s.current.id], s.threads[t].prio) then SwitchTo(s, Queue(s, t)[0]) else s
  {
    K.Pick(s, max);
    assert Highest(s, 0, max) == s.threads[t].prio;
  }

  /** After the switch to the first in the queue: the turn of `t` has come, or the others ahead of it are left. */
  lemma TurnsOver(s: State, t: Id, max: nat)
    requires InLine(s, t, max)
    ensures TicksLeft(SwitchTo(s, Queue(s, t)[0]), t, max, Ahead(s.threads, Queue(s, t), t))
  {
    LineFacts(s, t, max);
    var c, p, q := s.current.id, s.threads[t].prio, Queue(s, t);
    var to := q[0];
    var s' := SwitchTo(s, to);
    SwitchGood(s, to);
    K.SwitchFields(s, to);
    K.SwitchQueue(s, to);
    if t != to {
      var tail := if s.threads[c].stat == Running && s.threads[c].prio == p then [c] else [];
      assert Queue(s', t) == q[1..] + tail;
      assert q == [to] + q[1..];
      AheadSnoc(s'.threads, q[1..], t, tail);
      AheadKept(s, s', q[1..], t);
      forall r: nat | r < p ensures s'.At(ReadyList(r)) == [] { assert s.At(ReadyList(r)) == []; }
    }
  }

  lemma AheadKept(s: State, s': State, q: seq<Id>, t: Id)
    requires forall x :: x in q ==>
      x in s.threads && x in s'.threads && s'.threads[x].remaining == s.threads[x].remaining
    ensures Ahead(s'.threads, q, t) == Ahead(s.threads, q, t)
    ensures TicksAhead(s'.threads, q, t) <==> TicksAhead(s.threads, q, t)
  {
    AheadFrame(s.threads, q, t, s'.threads);
  }

  /** A tick brings the turn of a waiting thread one tick nearer. */
  lemma TickNearer(s: State, t: Id, max: nat)
    requires Waits(s, t, max)
    ensures TicksLeft(Tick(s, max), t, max, WaitTicks(s, t) - 1)
  {
    TickGood(s, max);
    LineFacts(s, t, max);
    var c, q := s.current.id, Queue(s, t);
    if s.threads[c].remaining > 1 {
      var s' := Tick(s, max);
      assert forall r: nat :: s'.At(ReadyList(r)) == s.At(ReadyList(r));
      AheadFrame(s.threads, q, t, s'.threads);
    } else {
      var u := SliceOver(s);
      SliceOverGood(s);
      assert forall r: nat :: u.At(ReadyList(r)) == s.At(ReadyList(r));
      AheadFrame(s.threads, q, t, u.threads);
      GivesWayTo(u, t, max);
      TurnsOver(u, t, max);
    }
  }

  /** rt_schedule: nothing happens, or the rest of the slice of the current thread is lost. */
  lemma ScheduleNearer(s: State, t: Id, max: nat)
    requires Waits(s, t, max)
    ensures TicksLeft(Schedule(s, max), t, max, WaitTicks(s, t) -
      if GivesWay(s.threads[s.current.id], s.threads[t].prio) then s.threads[s.current.id].remaining else 0)
  {
    LineFacts(s, t, max);
    GivesWayTo(s, t, max);
    if GivesWay(s.threads[s.current.id], s.threads[t].prio) { TurnsOver(s, t, max); }
  }

  /** Any other event: the turn comes when it did, less the ticks of a thread taken away from before `t`. */
  lemma OtherNearer(s: State, e: K.Event, t: Id, max: nat)
    requires Waits(s, t, max) && Mild(s, e, t, max) && !e.Clock? && !e.Reschedule? && !e.Leave? && !e.Start?
    ensures TicksLeft(K.Step(s, e, max), t, max, WaitTicks(s, t) - Loss(s, e, t))
  {
    K.StepGood(s, e, max);
    match e
    case Enlist(x) => JoinedWait(s, e, t, max);
    case Timeout(x) => JoinedWait(s, e, t, max);
    case ChangePriority(x, prio) => PriorityWait(s, x, prio, t, max);
    case Unlink(x) => LeftWait(s, e, t, max);
    case Stop(x) => LeftWait(s, e, t, max);
    case Remove(x) => LeftWait(s, e, t, max);
    case Exit(x, defunct) => LeftWait(s, e, t, max);
    case _ => QuietWait(s, e, t, max);
  }

  lemma QuietWait(s: State, e: K.Event, t: Id, max: nat)
    requires Waits(s, t, max) && Mild(s, e, t, max) && Good(K.Step(s, e, max))
    requires e.Create? || e.StartUp? || e.Test? || e.Finish? || e.Mark? || e.Bury? || e.Wait?
    ensures TicksLeft(K.Step(s, e, max), t, max, WaitTicks(s, t))
  {
    QuietEffect(s, e, t, max);
    LineFacts(s, t, max);
    NotAhead(Queue(s, t), s.current.id, t);
    EffectWait(s, K.Step(s, e, max), t, max, s.current.id, []);
  }

  lemma JoinedWait(s: State, e: K.Event, t: Id, max: nat)
    requires Waits(s, t, max) && Mild(s, e, t, max) && (e.Enlist? || e.Timeout?) && Good(K.Step(s, e, max))
    ensures TicksLeft(K.Step(s, e, max), t, max, WaitTicks(s, t))
  {
    JoinEffect(s, e, t, max);
    NotInQueues(s, e.t);
    NotAhead(Queue(s, t), e.t, t);
    var tail := if s.current != Cur(e.t) && s.threads[e.t].prio == s.threads[t].prio then [e.t] else [];
    EffectWait(s, K.Step(s, e, max), t, max, e.t, tail);
  }

  lemma LeftWait(s: State, e: K.Event, t: Id, max: nat)
    requires Waits(s, t, max) && Mild(s, e, t, max) && (e.Unlink? || e.Stop? || e.Remove? || e.Exit?)
    requires Good(K.Step(s, e, max))
    ensures TicksLeft(K.Step(s, e, max), t, max, WaitTicks(s, t) - Loss(s, e, t))
  {
    LeaveEffect(s, e, t, max);
    LossOfLeaving(s, e, t, max);
    EffectWait(s, K.Step(s, e, max), t, max, e.t, []);
  }

  lemma LossOfLeaving(s: State, e: K.Event, t: Id, max: nat)
    requires Waits(s, t, max) && Mild(s, e, t, max) && (e.Unlink? || e.Stop? || e.Remove? || e.Exit?)
    ensures Loss(s, e, t) == if IsAhead(Queue(s, t), e.t, t) && e.t in s.threads then s.threads[e.t].remaining else 0
  {
    LineFacts(s, t, max);
    NotAhead(Queue(s, t), s.current.id, t);
  }

  lemma PriorityWait(s: State, x: Id, prio: nat, t: Id, max: nat)
    requires Waits(s, t, max) && Mild(s, K.ChangePriority(x, prio), t, max) && Good(SetPriority(s, x, prio))
    ensures TicksLeft(SetPriority(s, x, prio), t, max, WaitTicks(s, t) - Loss(s, K.ChangePriority(x, prio), t))
  {
    if s.threads[x].stat == Ready {
      MoveEffect(s, x, prio, t, max);
      EffectWait(s, SetPriority(s, x, prio), t, max, x, if prio == s.threads[t].prio then [x] else []);
    } else {
      FieldWait(s, x, prio, t, max);
    }
  }

  lemma FieldWait(s: State, x: Id, prio: nat, t: Id, max: nat)
    requires Waits(s, t, max) && Mild(s, K.ChangePriority(x, prio), t, max) && Good(SetPriority(s, x, prio))
    requires s.threads[x].stat != Ready
    ensures TicksLeft(SetPriority(s, x, prio), t, max, WaitTicks(s, t)) && !IsAhead(Queue(s, t), x, t)
  {
    PriorityEffect(s, x, prio, t, max);
    LineFacts(s, t, max);
    NotAhead(Queue(s, t), s.current.id, t);
    NotInQueues(s, x);
    NotAhead(Queue(s, t), x, t);
    EffectWait(s, SetPriority(s, x, prio), t, max, s.current.id, []);
  }

  /** Every event: a tick passes, or ticks are lost, or nothing changes for `t`. */
  lemma StepNearer(s: State, e: K.Event, t: Id, max: nat)
    requires Waits(s, t, max) && Mild(s, e, t, max)
    ensures TicksLeft(K.Step(s, e, max), t, max, WaitTicks(s, t) - (if e.Clock? then 1 else 0) - Loss(s, e, t))
  {
    match e
    case Clock => TickNearer(s, t, max);
    case Reschedule => ScheduleNearer(s, t, max);
    case Leave =>
      assert K.Unlocked(s) == s;
      ScheduleNearer(s, t, max);
    case _ => OtherNearer(s, e, t, max);
  }

  /** Without a more urgent ready thread and before the end of its slice, the current thread goes on. */
  lemma StaysOn(s: State, max: nat)
    requires Good(s) && s.current.Cur? && s.threads[s.current.id].stat == Running && !s.threads[s.current.id].yielding
    requires forall r: nat :: r < s.threads[s.current.id].prio ==> s.At(ReadyList(r)) == []
    ensures Schedule(s, max) == s
  {
    if s.lock == 0 && AnyReady(s, max) {
      K.Pick(s, max);
      var h := Highest(s, 0, max);
      assert s.At(ReadyList(h)) != [];
    }
  }

  lemma WakeQueues(s: State, u: Id)
    requires Good(s) && u in s.threads && s.threads[u].stat == Suspended && s.current != Cur(u)
    ensures var w := Wake(s, u);
      && w.threads == s.threads[u := s.threads[u].(stat := Ready, place := ReadyList(s.threads[u].prio))]
      && w.current == s.current && w.lock == s.lock
      && forall r: nat :: w.At(ReadyList(r)) == s.At(ReadyList(r)) + (if r == s.threads[u].prio then [u] else [])
  {
    forall r: nat
      ensures Wake(s, u).At(ReadyList(r)) == s.At(ReadyList(r)) + (if r == s.threads[u].prio then [u] else [])
    {
      assert s.At(ReadyList(r)) + [] == s.At(ReadyList(r));
    }
  }

  // ---------- runs ----------

  /** Number of ticks in `es`. */
  ghost function Clocks(es: seq<K.Event>): nat {
    if es == [] then 0 else
      var n := |es| - 1;
      Clocks(es[..n]) + if es[n].Clock? then 1 else 0
  }

  /** State after the events `es`, if each of them can happen in turn and leaves the wait of `t` alone, and `t` has not
      run before the last of them. */
  ghost function Run(s: State, es: seq<K.Event>, t: Id, max: nat): (r: Option<State>)
    requires Waits(s, t, max)
    ensures r.Some? ==>
      Good(r.value) && r.value.current.Cur? && r.value.current.id in r.value.threads && t in r.value.threads
  {
    if es == [] then Some(s) else
      var n := |es| - 1;
      match Run(s, es[..n], t, max)
      case None => None
      case Some(m) =>
        if Waits(m, t, max) && Mild(m, es[n], t, max) then
          K.StepGood(m, es[n], max);
          StepNearer(m, es[n], t, max);
          Some(K.Step(m, es[n], max))
        else None
  }

  /** Ticks lost in `es`. */
  ghost function Lost(s: State, es: seq<K.Event>, t: Id, max: nat): nat
    requires Waits(s, t, max) && Run(s, es, t, max).Some?
  {
    if es == [] then 0 else
      var n := |es| - 1;
      Lost(s, es[..n], t, max) + Loss(Run(s, es[..n], t, max).value, es[n], t)
  }

  /** In `es` rt_schedule never takes the rest of a slice away, and no thread ahead of `t` leaves its ready list. */
  ghost predicate NoneLost(s: State, es: seq<K.Event>, t: Id, max: nat)
    requires Waits(s, t, max) && Run(s, es, t, max).Some?
  {
    es == [] ||
      var n := |es| - 1;
      var m := Run(s, es[..n], t, max).value;
      NoneLost(s, es[..n], t, max) && !CutsShort(m, es[n], t) && !TakesAway(m, es[n], t)
  }

  /** Round robin: whatever the others do, `t` runs as soon as the ticks that pass and the ticks lost make up those
      left at the start to the current thread and to the threads ahead of `t`, and not before. */
  lemma {:induction false} TurnComes(s: State, es: seq<K.Event>, t: Id, max: nat)
    requires Waits(s, t, max) && Run(s, es, t, max).Some?
    ensures TicksLeft(Run(s, es, t, max).value, t, max, WaitTicks(s, t) - Clocks(es) - Lost(s, es, t, max))
    decreases |es|
  {
    if es == [] {
      LineFacts(s, t, max);
    } else {
      var n := |es| - 1;
      TurnComes(s, es[..n], t, max);
      StepNearer(Run(s, es[..n], t, max).value, es[n], t, max);
    }
  }

  /** Nothing is lost exactly when no slice is cut short and no thread ahead leaves. */
  lemma {:induction false} LostNone(s: State, es: seq<K.Event>, t: Id, max: nat)
    requires Waits(s, t, max) && Run(s, es, t, max).Some?
    ensures Lost(s, es, t, max) == 0 <==> NoneLost(s, es, t, max)
    decreases |es|
  {
    if es != [] {
      var n := |es| - 1;
      LostNone(s, es[..n], t, max);
      LossIff(Run(s, es[..n], t, max).value, es[n], t, max);
    }
  }

  lemma LossIff(s: State, e: K.Event, t: Id, max: nat)
    requires Waits(s, t, max) && Mild(s, e, t, max)
    ensures Loss(s, e, t) == 0 <==> !CutsShort(s, e, t) && !TakesAway(s, e, t)
  {
    LineFacts(s, t, max);
    if TakesAway(s, e, t) { AheadWithout(s.threads, Queue(s, t), t, e.t); }
  }

  /** The bound: `t` runs after at most the ticks left to the current thread and those ahead of it, and after
      exactly as many if and only if until then no slice is cut short and no thread ahead leaves. */
  lemma RoundRobinBound(s: State, es: seq<K.Event>, t: Id, max: nat)
    requires Waits(s, t, max) && Run(s, es, t, max).Some?
    ensures var r, k := Run(s, es, t, max).value, WaitTicks(s, t);
      && Clocks(es) <= k
      && (Clocks(es) == k ==> r.current == Cur(t))
      && (r.current == Cur(t) ==> (Clocks(es) == k <==> NoneLost(s, es, t, max)))
      && (NoneLost(s, es, t, max) ==> (r.current == Cur(t) <==> Clocks(es) == k))
  {
    TurnComes(s, es, t, max);
    LostNone(s, es, t, max);
  }

  // ---------- when a slice is cut short ----------

  /** A running thread gives way to a ready equal exactly when its yield flag is set. */
  lemma EqualTakesOverIff(s: State, max: nat)
    requires Good(s) && s.current.Cur? && s.lock == 0 && s.threads[s.current.id].stat == Running
    requires s.threads[s.current.id].prio < max && s.At(ReadyList(s.threads[s.current.id].prio)) != []
    requires forall r: nat :: r < s.threads[s.current.id].prio ==> s.At(ReadyList(r)) == []
    ensures Schedule(s, max).current != s.current <==> s.threads[s.current.id].yielding
  {
    if s.threads[s.current.id].yielding {
      K.Pick(s, max);
      assert Highest(s, 0, max) == s.threads[s.current.id].prio;
      K.SwitchFields(s, s.At(ReadyList(s.threads[s.current.id].prio))[0]);
    } else {
      StaysOn(s, max);
    }
  }

  /** The flag outlives the slice it was set for: a thread whose slice ends while it has no ready equal keeps it,
      so the first equal to become ready takes over although a full new slice is left. */
  lemma SliceCutShort(s: State, u: Id, max: nat)
    requires Good(s) && s.current.Cur? && s.lock == 0 && s.threads[s.current.id].stat == Running
    requires s.threads[s.current.id].remaining == 1 && s.threads[s.current.id].initTick > 0
    requires s.threads[s.current.id].prio < max
    requires forall r: nat :: r <= s.threads[s.current.id].prio ==> s.At(ReadyList(r)) == []
    requires u in s.threads && s.threads[u].stat == Suspended && s.threads[u].prio == s.threads[s.current.id].prio
    ensures var m := Tick(s, max);
      && Good(m) && m.current == s.current && m.threads[s.current.id].remaining == s.threads[s.current.id].initTick
      && Good(Wake(m, u)) && Schedule(Wake(m, u), max).current == Cur(u)
  {
    var c, p := s.current.id, s.threads[s.current.id].prio;
    TickGood(s, max);
    var v := SliceOver(s);
    SliceOverGood(s);
    assert forall r: nat :: v.At(ReadyList(r)) == s.At(ReadyList(r));
    if AnyReady(v, max) {
      K.Pick(v, max);
      assert v.At(ReadyList(Highest(v, 0, max))) != [];
    }
    var m := Tick(s, max);
    assert m == v;
    WakeGood(m, u);
    WakeQueues(m, u);
    var w := Wake(m, u);
    assert w.At(ReadyList(p)) == [u];
    K.Pick(w, max);
    assert Highest(w, 0, max) == p;
    K.SwitchFields(w, u);
  }
}
