/** Threads and the scheduler (rt-thread/src/thread.c, scheduler.c, clock.c) on one core: one step for each
    section that runs with interrupts disabled. A smaller priority number is more urgent. */
module KernelSpec {
  import opened StableOrder
  import opened WaitQueue

  datatype Stat = Init | Ready | Suspended | Running | Closed

  /** The list a thread's node (tlist) is linked into. */
  datatype Place = Nowhere | ReadyList(prio: nat) | WaitList(id: nat) | Defunct

  /** struct rt_thread; `yielding` is RT_THREAD_STAT_YIELD in stat. */
  datatype Thread = Thread(stat: Stat, yielding: bool, prio: nat, initPrio: nat, initTick: nat, remaining: nat,
    place: Place)

  /** rt_current_thread */
  datatype Current = NoThread | Cur(id: Id)

  /** `leaving` are the threads a deletion has taken off their list and has yet to close. */
  datatype State = State(
    threads: map<Id, Thread>,
    lists: map<Place, seq<Id>>,
    current: Current,
    lock: int,
    leaving: set<Id>)
  {
    /** The list at place `p`. */
    ghost function At(p: Place): seq<Id> {
      if p in lists then lists[p] else []
    }

    ghost function SetList(p: Place, q: seq<Id>): State {
      this.(lists := lists[p := q])
    }

    ghost function SetThread(t: Id, th: Thread): State {
      this.(threads := threads[t := th])
    }
  }

  // ---------- what holds in every state ----------

  /** Where a thread in this state may be linked, and which thread may run. A ready thread may be linked nowhere
      only between the two sections of its deletion. */
  predicate PlaceFits(t: Id, th: Thread, current: Current, leaving: bool) {
    match th.stat
    case Init => th.place == Nowhere && current != Cur(t)
    case Ready => (th.place == ReadyList(th.prio) || (leaving && th.place == Nowhere)) && current != Cur(t)
    case Suspended => th.place == Nowhere || th.place.WaitList?
    case Running => th.place == Nowhere && current == Cur(t)
    case Closed => th.place == Nowhere || th.place == Defunct
  }

  ghost predicate ThreadsFit(s: State) {
    && (forall t :: t in s.threads ==> PlaceFits(t, s.threads[t], s.current, t in s.leaving))
    && (s.current.Cur? ==> s.current.id in s.threads)
  }

  /** Each list holds exactly the threads whose node is linked into it, once. */
  ghost predicate ListsFit(s: State) {
    forall p: Place {:trigger s.At(p)} :: p != Nowhere ==> ListFits(s.threads, s.At(p), p)
  }

  ghost predicate ListFits(threads: map<Id, Thread>, q: seq<Id>, p: Place) {
    Distinct(q) && forall t {:trigger t in q} :: t in q <==> t in threads && threads[t].place == p
  }

  /** Every thread is on the one queue its state dictates. */
  ghost predicate Good(s: State) {
    ThreadsFit(s) && ListsFit(s)
  }

  // ---------- lists ----------

  /** rt_list_remove of a thread's node. */
  ghost function Unlinked(s: State, t: Id): State
    requires t in s.threads
  {
    var p := s.threads[t].place;
    if p == Nowhere then s
    else s.SetList(p, Without(s.At(p), t)).SetThread(t, s.threads[t].(place := Nowhere))
  }

  /** rt_list_insert of a thread's node: the list at `p` becomes `q`. */
  ghost function Linked(s: State, t: Id, p: Place, q: seq<Id>): State
    requires t in s.threads
  {
    s.SetList(p, q).SetThread(t, s.threads[t].(place := p))
  }

  ghost function WithStat(s: State, t: Id, stat: Stat): State
    requires t in s.threads
  {
    s.SetThread(t, s.threads[t].(stat := stat))
  }

  lemma UnlinkedLists(s: State, t: Id)
    requires ListsFit(s) && t in s.threads
    ensures ListsFit(Unlinked(s, t)) && Unlinked(s, t).threads.Keys == s.threads.Keys
    ensures Unlinked(s, t).threads[t].place == Nowhere
  {
    var p := s.threads[t].place;
    if p != Nowhere {
      var q := s.At(p);
      assert ListFits(s.threads, q, p);
      WithoutIn(q, t);
      DistinctWithout(q, t);
      var s' := Unlinked(s, t);
      forall r: Place | r != Nowhere ensures ListFits(s'.threads, s'.At(r), r) {
        assert ListFits(s.threads, s.At(r), r);
      }
    }
  }

  /** Unlinking any thread but a ready one that is not being deleted. */
  lemma UnlinkGood(s: State, t: Id)
    requires Good(s) && t in s.threads && (s.threads[t].stat != Ready || t in s.leaving)
    ensures Good(Unlinked(s, t)) && Unlinked(s, t).threads[t].place == Nowhere
  {
    UnlinkedLists(s, t);
  }

  lemma LinkedLists(s: State, t: Id, p: Place, q: seq<Id>)
    requires ListsFit(s) && t in s.threads && s.threads[t].place == Nowhere && p != Nowhere
    requires t !in s.At(p) ==> Distinct(q) && forall x :: x in q <==> x == t || x in s.At(p)
    ensures ListsFit(Linked(s, t, p, q)) && t !in s.At(p)
  {
    var s' := Linked(s, t, p, q);
    assert ListFits(s.threads, s.At(p), p);
    forall r: Place | r != Nowhere ensures ListFits(s'.threads, s'.At(r), r) {
      assert ListFits(s.threads, s.At(r), r);
    }
  }

  /** Changing fields other than the place keeps the lists. */
  lemma FieldsLists(s: State, t: Id, th: Thread)
    requires ListsFit(s) && (if t in s.threads then th.place == s.threads[t].place else th.place == Nowhere)
    ensures ListsFit(s.SetThread(t, th))
  {
    var s' := s.SetThread(t, th);
    forall r: Place | r != Nowhere ensures ListFits(s'.threads, s'.At(r), r) {
      assert ListFits(s.threads, s.At(r), r);
    }
  }

  // ---------- the steps ----------

  /** rt_schedule_insert_thread */
  ghost function Insert(s: State, t: Id): State
    requires t in s.threads
  {
    if s.current == Cur(t) then WithStat(s, t, Running)
    else
      var p := ReadyList(s.threads[t].prio);
      Linked(WithStat(s, t, Ready), t, p, s.At(p) + [t])
  }

  lemma InsertGood(s: State, t: Id)
    requires ListsFit(s) && t in s.threads && s.threads[t].place == Nowhere
    requires forall x :: x in s.threads && x != t ==> PlaceFits(x, s.threads[x], s.current, x in s.leaving)
    requires s.current.Cur? ==> s.current.id in s.threads
    ensures Good(Insert(s, t))
  {
    if s.current == Cur(t) {
      FieldsLists(s, t, s.threads[t].(stat := Running));
    } else {
      var p := ReadyList(s.threads[t].prio);
      FieldsLists(s, t, s.threads[t].(stat := Ready));
      assert ListFits(s.threads, s.At(p), p);
      LinkedLists(WithStat(s, t, Ready), t, p, s.At(p) + [t]);
    }
  }

  /** The section of rt_thread_suspend. */
  ghost function Suspend(s: State, t: Id): State
    requires t in s.threads
  {
    WithStat(Unlinked(s, t), t, Suspended)
  }

  lemma SuspendGood(s: State, t: Id)
    requires Good(s) && t in s.threads
    ensures Good(Suspend(s, t)) && Suspend(s, t).threads[t].place == Nowhere
    ensures Suspend(s, t).threads[t].stat == Suspended
  {
    UnlinkedLists(s, t);
    var u := Unlinked(s, t);
    FieldsLists(u, t, u.threads[t].(stat := Suspended));
  }

  ghost function Prios(s: State): map<Id, int> {
    map t | t in s.threads :: s.threads[t].prio
  }

  /** rt_thread_suspend within rt_ipc_list_suspend: an error for a thread neither ready nor running, which the
      caller ignores. */
  ghost function AfterSuspend(s: State, t: Id): State
    requires t in s.threads
  {
    if s.threads[t].stat == Ready || s.threads[t].stat == Running then Suspend(s, t) else s
  }

  /** rt_ipc_list_suspend: the node is linked into the list, whatever became of the suspension. */
  ghost function SuspendOn(s: State, t: Id, w: nat, flag: Flag): State
    requires t in s.threads && forall x :: x in AfterSuspend(s, t).At(WaitList(w)) ==> x in AfterSuspend(s, t).threads
  {
    var u := AfterSuspend(s, t);
    Linked(u, t, WaitList(w), Enqueue(flag, u.At(WaitList(w)), t, Prios(u)))
  }

  /** What rt_ipc_list_suspend does not test: a thread that is suspended already must be linked nowhere. */
  predicate MayWait(th: Thread) {
    th.stat == Ready || th.stat == Running || (th.stat == Suspended && th.place == Nowhere)
  }

  /** Waiting keeps every thread on the one queue its state dictates exactly for a thread that could be
      suspended, or is suspended but linked nowhere. */
  lemma SuspendOnGoodIff(s: State, t: Id, w: nat, flag: Flag)
    requires Good(s) && t in s.threads
    ensures AfterSuspend(s, t).threads.Keys == s.threads.Keys
    ensures forall x :: x in AfterSuspend(s, t).At(WaitList(w)) ==> x in AfterSuspend(s, t).threads
    ensures Good(SuspendOn(s, t, w, flag)) <==> MayWait(s.threads[t])
  {
    SuspendGood(s, t);
    var u := AfterSuspend(s, t);
    assert ListFits(u.threads, u.At(WaitList(w)), WaitList(w));
    if MayWait(s.threads[t]) { WaitGood(u, t, w, flag); } else { WaitLinked(s, t, w, flag); }
  }

  lemma WaitGood(u: State, t: Id, w: nat, flag: Flag)
    requires Good(u) && t in u.threads && u.threads[t].stat == Suspended && u.threads[t].place == Nowhere
    requires forall x :: x in u.At(WaitList(w)) ==> x in u.threads
    ensures Good(Linked(u, t, WaitList(w), Enqueue(flag, u.At(WaitList(w)), t, Prios(u))))
  {
    var q := u.At(WaitList(w));
    assert ListFits(u.threads, q, WaitList(w));
    EnqueueIn(flag, q, t, Prios(u));
    InsertDistinct(q, t, Prios(u));
    LinkedLists(u, t, WaitList(w), Enqueue(flag, q, t, Prios(u)));
  }

  /** A thread that is neither: it would be in two lists, in one list twice, or in a list its state forbids. */
  lemma WaitLinked(s: State, t: Id, w: nat, flag: Flag)
    requires Good(s) && t in s.threads && !MayWait(s.threads[t])
    requires forall x :: x in s.At(WaitList(w)) ==> x in s.threads
    ensures !Good(Linked(s, t, WaitList(w), Enqueue(flag, s.At(WaitList(w)), t, Prios(s))))
  {
    var p, q := s.threads[t].place, s.At(WaitList(w));
    var r := Linked(s, t, WaitList(w), Enqueue(flag, q, t, Prios(s)));
    if s.threads[t].stat != Suspended {
      assert !PlaceFits(t, r.threads[t], r.current, t in r.leaving);
    } else if p == WaitList(w) {
      assert ListFits(s.threads, q, p) && t in q;
      EnqueueTwice(flag, q, t, Prios(s));
      assert r.At(WaitList(w)) == Enqueue(flag, q, t, Prios(s));
    } else {
      assert ListFits(s.threads, s.At(p), p) && t in s.At(p);
      assert t in r.At(p) && !ListFits(r.threads, r.At(p), p);
    }
  }

  /** rt_thread_control, RT_THREAD_CTRL_CHANGE_PRIORITY */
  ghost function SetPriority(s: State, t: Id, prio: nat): State
    requires t in s.threads
  {
    if s.threads[t].stat == Ready then
      var u := Unlinked(s, t);
      Insert(u.SetThread(t, u.threads[t].(prio := prio)), t)
    else s.SetThread(t, s.threads[t].(prio := prio))
  }

  lemma SetPriorityGood(s: State, t: Id, prio: nat)
    requires Good(s) && t in s.threads
    ensures Good(SetPriority(s, t, prio))
  {
    if s.threads[t].stat == Ready {
      UnlinkedLists(s, t);
      var u := Unlinked(s, t);
      FieldsLists(u, t, u.threads[t].(prio := prio));
      InsertGood(u.SetThread(t, u.threads[t].(prio := prio)), t);
    } else {
      FieldsLists(s, t, s.threads[t].(prio := prio));
    }
  }

  /** No thread but `t` differs, nor who runs, nor the lock. */
  ghost predicate OnlyThread(s: State, r: State, t: Id) {
    && r.threads.Keys == s.threads.Keys && r.current == s.current && r.lock == s.lock
    && forall x :: x in s.threads && x != t ==> r.threads[x] == s.threads[x]
  }

  /** A change of priority, in whatever state the thread is: the priority is the one asked for, and nothing else
      changes but the place of a ready thread. */
  lemma PriorityExact(s: State, t: Id, prio: nat)
    requires Good(s) && t in s.threads
    ensures var r := SetPriority(s, t, prio); var th, th' := s.threads[t], r.threads[t];
      && OnlyThread(s, r, t) && th'.prio == prio && th'.stat == th.stat && th'.yielding == th.yielding
      && th'.initPrio == th.initPrio && th'.initTick == th.initTick && th'.remaining == th.remaining
      && th'.place == (if th.stat == Ready then ReadyList(prio) else th.place)
      && forall p: Place :: !p.ReadyList? || th.stat != Ready ==> r.At(p) == s.At(p)
  {
    assert PlaceFits(t, s.threads[t], s.current, t in s.leaving);
  }

  /** rt_thread_exit of a thread before it schedules: off its list, closed, and (unless a static thread without
      cleanup) at the front of the defunct list. */
  ghost function Exit(s: State, t: Id, defunct: bool): State
    requires t in s.threads
  {
    var u := Unlinked(s, t);
    var v := u.SetThread(t, u.threads[t].(stat := Closed, yielding := false));
    if defunct then Linked(v, t, Defunct, [t] + v.At(Defunct)) else v
  }

  lemma ExitGood(s: State, t: Id, defunct: bool)
    requires Good(s) && t in s.threads
    ensures Good(Exit(s, t, defunct))
  {
    UnlinkedLists(s, t);
    var u := Unlinked(s, t);
    FieldsLists(u, t, u.threads[t].(stat := Closed, yielding := false));
    var v := u.SetThread(t, u.threads[t].(stat := Closed, yielding := false));
    if defunct { BuryLists(v, t); }
  }

  lemma BuryLists(s: State, t: Id)
    requires ListsFit(s) && t in s.threads && s.threads[t].place == Nowhere
    ensures ListsFit(Linked(s, t, Defunct, [t] + s.At(Defunct)))
  {
    assert ListFits(s.threads, s.At(Defunct), Defunct);
    LinkedLists(s, t, Defunct, [t] + s.At(Defunct));
  }

  /** The first section of rt_thread_delete and rt_thread_detach: off its list. */
  ghost function Removed(s: State, t: Id): State
    requires t in s.threads
  {
    Unlinked(s, t).(leaving := s.leaving + {t})
  }

  lemma RemovedGood(s: State, t: Id)
    requires Good(s) && t in s.threads
    ensures Good(Removed(s, t)) && Removed(s, t).threads[t].place == Nowhere
  {
    UnlinkedLists(s, t);
    var u := Unlinked(s, t);
    SameListsFit(u, Removed(s, t));
  }

  lemma SameListsFit(s: State, r: State)
    requires ListsFit(s) && r.threads == s.threads && r.lists == s.lists
    ensures ListsFit(r)
  {
    forall p: Place | p != Nowhere ensures ListFits(r.threads, r.At(p), p) { assert r.At(p) == s.At(p); }
  }

  /** rt_thread_detach: the thread is closed. */
  ghost function ClosedNow(s: State, t: Id): State
    requires t in s.threads
  {
    s.(leaving := s.leaving - {t}).SetThread(t, s.threads[t].(stat := Closed, yielding := false))
  }

  /** The second section of rt_thread_detach: at the front of the defunct list. */
  ghost function Buried(s: State, t: Id): State
    requires t in s.threads
  {
    Linked(s, t, Defunct, [t] + s.At(Defunct))
  }

  /** The last steps of a deletion keep every thread on the one queue its state dictates exactly when nothing has
      linked the thread in the meantime. */
  lemma DeletedGoodIff(s: State, t: Id)
    requires Good(s) && t in s.threads
    ensures Good(ClosedNow(s, t)) <==> s.threads[t].place == Nowhere || s.threads[t].place == Defunct
    ensures Good(Buried(s, t)) <==> s.threads[t].place == Nowhere && s.threads[t].stat == Closed
    ensures Good(Buried(ClosedNow(s, t), t)) <==> s.threads[t].place == Nowhere
  {
    var c := ClosedNow(s, t);
    var a := s.(leaving := s.leaving - {t});
    SameListsFit(s, a);
    FieldsLists(a, t, c.threads[t]);
    assert PlaceFits(t, c.threads[t], c.current, false) <==>
      s.threads[t].place == Nowhere || s.threads[t].place == Defunct;
    if s.threads[t].place == Nowhere {
      BuryLists(s, t);
      BuryLists(c, t);
      assert PlaceFits(t, Buried(s, t).threads[t], s.current, t in s.leaving) <==> s.threads[t].stat == Closed;
    } else {
      BuriedTwice(s, t);
      BuriedTwice(c, t);
    }
  }

  lemma BuriedTwice(s: State, t: Id)
    requires ListsFit(s) && t in s.threads && s.threads[t].place != Nowhere
    ensures !ListsFit(Buried(s, t))
  {
    var p, r := s.threads[t].place, Buried(s, t);
    assert ListFits(s.threads, s.At(p), p) && t in s.At(p);
    if p == Defunct {
      var i :| 0 <= i < |s.At(p)| && s.At(p)[i] == t;
      assert r.At(p)[0] == r.At(p)[i + 1];
    } else {
      assert t in r.At(p);
    }
    assert !ListFits(r.threads, r.At(p), p);
  }

  /** rt_thread_timeout up to the scheduling, and the whole of rt_thread_resume. */
  ghost function Wake(s: State, t: Id): State
    requires t in s.threads
  {
    Insert(Unlinked(s, t), t)
  }

  lemma WakeGood(s: State, t: Id)
    requires Good(s) && t in s.threads
    ensures Good(Wake(s, t))
  {
    UnlinkedLists(s, t);
    InsertGood(Unlinked(s, t), t);
  }

  // ---------- scheduling ----------

  /** Some thread is ready. */
  ghost predicate AnyReady(s: State, max: nat) {
    exists p: nat :: p < max && s.At(ReadyList(p)) != []
  }

  /** The most urgent priority with a ready thread. */
  ghost function Highest(s: State, from: nat, max: nat): (p: nat)
    requires exists p: nat :: from <= p < max && s.At(ReadyList(p)) != []
    ensures from <= p < max && s.At(ReadyList(p)) != [] && forall r: nat :: from <= r < p ==> s.At(ReadyList(r)) == []
    decreases max - from
  {
    if s.At(ReadyList(from)) != [] then from else Highest(s, from + 1, max)
  }

  /** The running thread gives way to the ready thread of priority `p`. */
  predicate GivesWay(th: Thread, p: nat) {
    th.stat != Running || p < th.prio || (p == th.prio && th.yielding)
  }

  /** The switch from the current thread to `to`; a running thread goes to the end of its ready list. */
  ghost function SwitchTo(s: State, to: Id): State
    requires s.current.Cur? && s.current.id in s.threads && to in s.threads
  {
    var from := s.current.id;
    var a := if s.threads[from].stat == Running then s.SetThread(from, s.threads[from].(yielding := false)) else s;
    var b := a.(current := Cur(to));
    var c := if s.threads[from].stat == Running then Insert(b, from) else b;
    WithStat(Unlinked(c, to), to, Running)
  }

  /** rt_schedule */
  ghost function Schedule(s: State, max: nat): State
    requires Good(s) && s.current.Cur?
  {
    ReadyThreads(s);
    if s.lock != 0 || !AnyReady(s, max) then s
    else
      var p := Highest(s, 0, max);
      if GivesWay(s.threads[s.current.id], p) then SwitchTo(s, s.At(ReadyList(p))[0]) else s
  }

  lemma SwitchGood(s: State, to: Id)
    requires Good(s) && s.current.Cur? && to in s.threads && s.threads[to].stat == Ready
    ensures Good(SwitchTo(s, to))
  {
    var from := s.current.id;
    var a := if s.threads[from].stat == Running then s.SetThread(from, s.threads[from].(yielding := false)) else s;
    FieldsLists(s, from, a.threads[from]);
    var b := a.(current := Cur(to));
    assert ListsFit(b) by {
      forall r: Place | r != Nowhere ensures ListFits(b.threads, b.At(r), r) { assert b.At(r) == a.At(r); }
    }
    var c := if s.threads[from].stat == Running then Insert(b, from) else b;
    SwitchFrom(s, b, to);
    UnlinkedLists(c, to);
    var u := Unlinked(c, to);
    FieldsLists(u, to, u.threads[to].(stat := Running));
  }

  /** Between leaving the old thread and starting the new one. */
  lemma SwitchFrom(s: State, b: State, to: Id)
    requires Good(s) && s.current.Cur? && to in s.threads && s.threads[to].stat == Ready && ListsFit(b)
    requires b == s.(current := Cur(to), threads := b.threads) && b.threads.Keys == s.threads.Keys
    requires var from := s.current.id;
      b.threads == if s.threads[from].stat == Running then s.threads[from := s.threads[from].(yielding := false)]
        else s.threads
    ensures var from := s.current.id;
      var c := if s.threads[from].stat == Running then Insert(b, from) else b;
      && ListsFit(c) && c.current == Cur(to) && c.threads.Keys == s.threads.Keys && c.threads[to] == s.threads[to]
      && c.leaving == s.leaving
      && forall x :: x in c.threads && x != to ==> PlaceFits(x, c.threads[x], Cur(to), x in s.leaving)
  {
    var from := s.current.id;
    if s.threads[from].stat == Running {
      var p := ReadyList(b.threads[from].prio);
      FieldsLists(b, from, b.threads[from].(stat := Ready));
      assert ListFits(b.threads, b.At(p), p);
      LinkedLists(WithStat(b, from, Ready), from, p, b.At(p) + [from]);
    }
  }

  /** The ready lists hold ready threads of their priority. */
  lemma ReadyThreads(s: State)
    requires Good(s)
    ensures forall p: nat, t :: t in s.At(ReadyList(p)) ==>
      t in s.threads && s.threads[t].stat == Ready && s.threads[t].prio == p
    ensures forall t :: t in s.threads && s.threads[t].stat == Ready && s.threads[t].place != Nowhere ==>
      t in s.At(ReadyList(s.threads[t].prio))
  {
    forall p: nat, t | t in s.At(ReadyList(p))
      ensures t in s.threads && s.threads[t].stat == Ready && s.threads[t].prio == p
    {
      assert ListFits(s.threads, s.At(ReadyList(p)), ReadyList(p));
      assert PlaceFits(t, s.threads[t], s.current, t in s.leaving);
    }
    forall t | t in s.threads && s.threads[t].stat == Ready && s.threads[t].place != Nowhere
      ensures t in s.At(ReadyList(s.threads[t].prio))
    {
      assert PlaceFits(t, s.threads[t], s.current, t in s.leaving);
      assert ListFits(s.threads, s.At(ReadyList(s.threads[t].prio)), ReadyList(s.threads[t].prio));
    }
  }

  lemma ScheduleGood(s: State, max: nat)
    requires Good(s) && s.current.Cur?
    ensures Good(Schedule(s, max)) && Schedule(s, max).current.Cur?
  {
    ReadyThreads(s);
    if s.lock == 0 && AnyReady(s, max) {
      var p := Highest(s, 0, max);
      if GivesWay(s.threads[s.current.id], p) {
        SwitchGood(s, s.At(ReadyList(p))[0]);
      }
    }
  }

  // ---------- the tick ----------

  const TICKS: nat := 0x1_0000_0000 // rt_ubase_t has 32 bits

  /** The end of the time slice: a new one begins, and the thread is to give way to its equals. */
  ghost function SliceOver(s: State): State
    requires s.current.Cur? && s.current.id in s.threads
  {
    var c := s.current.id;
    s.SetThread(c, s.threads[c].(remaining := s.threads[c].initTick, yielding := true))
  }

  lemma SliceOverGood(s: State)
    requires Good(s) && s.current.Cur?
    ensures Good(SliceOver(s))
  {
    FieldsLists(s, s.current.id, SliceOver(s).threads[s.current.id]);
  }

  /** The part of rt_tick_increase before the timers: the time slice of the current thread. */
  ghost function Tick(s: State, max: nat): State
    requires Good(s) && s.current.Cur?
  {
    var c := s.current.id;
    var th := s.threads[c];
    var left := if th.remaining == 0 then TICKS - 1 else th.remaining - 1;
    if left == 0 then SliceOverGood(s); Schedule(SliceOver(s), max)
    else s.SetThread(c, th.(remaining := left))
  }

  lemma TickGood(s: State, max: nat)
    requires Good(s) && s.current.Cur?
    ensures Good(Tick(s, max)) && Tick(s, max).current.Cur?
  {
    SliceOverGood(s);
    ScheduleGood(SliceOver(s), max);
    var c := s.current.id;
    var th := s.threads[c];
    var left := if th.remaining == 0 then TICKS - 1 else th.remaining - 1;
    FieldsLists(s, c, th.(remaining := left));
  }
}
