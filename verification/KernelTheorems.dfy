/** What holds in every run of the kernel, and whom the scheduler runs. */
module KernelTheorems {
  import opened StableOrder
  import opened WaitQueue
  import opened KernelSpec

  // ---------- runs ----------

  datatype Event =
    | Create(t: Id, prio: nat, tick: nat)   // rt_thread_init
    | StartUp(t: Id)                        // rt_thread_startup before it resumes the thread
    | Test(t: Id)                           // rt_thread_resume, the test of stat with interrupts enabled
    | Unlink(t: Id)                         // rt_thread_resume, first section
    | Enlist(t: Id)                         // rt_thread_resume, second section
    | Stop(t: Id)                           // rt_thread_suspend
    | Wait(t: Id, w: nat, flag: Flag)       // rt_ipc_list_suspend of the current thread
    | Timeout(t: Id)                        // rt_thread_timeout before it schedules
    | ChangePriority(t: Id, prio: nat)      // rt_thread_control
    | Exit(t: Id, defunct: bool)            // rt_thread_exit of the current thread before it schedules
    | Remove(t: Id)                         // rt_thread_delete and rt_thread_detach, first section
    | Finish(t: Id)                         // rt_thread_delete, second section
    | Mark(t: Id)                           // rt_thread_detach, the thread is closed with interrupts enabled
    | Bury(t: Id)                           // rt_thread_detach, second section
    | Clock                                 // rt_tick_increase before the timers
    | Reschedule                            // rt_schedule
    | Enter                                 // rt_enter_critical
    | Leave                                 // rt_exit_critical
    | Start                                 // rt_system_scheduler_start

  /** The kernel with the calls in progress: of rt_thread_resume, past the test and between the two sections; of
      rt_thread_delete and rt_thread_detach, past the first section; of rt_thread_detach, past the closing. */
  datatype System = System(
    s: State,
    tested: multiset<Id>,
    unlinked: multiset<Id>,
    removed: multiset<Id>,
    marked: multiset<Id>)

  /** The event can happen: the assertions of the code hold and it does not return an error at once. The test of
      rt_thread_suspend comes before its section, which may find the thread in any state. */
  ghost predicate Enabled(s: State, e: Event, max: nat) {
    match e
    case Create(t, prio, tick) => t !in s.threads && prio < max
    case StartUp(t) => t in s.threads && s.threads[t].stat == Init
    case Test(t) => t in s.threads && s.threads[t].stat == Suspended
    case Unlink(t) => t in s.threads
    case Enlist(t) => t in s.threads
    case Stop(t) => t in s.threads
    case Wait(t, w, flag) => t in s.threads && s.current == Cur(t)
    case Timeout(t) => t in s.threads && s.threads[t].stat == Suspended
    case ChangePriority(t, prio) => t in s.threads && prio < max
    case Exit(t, defunct) => t in s.threads && s.current == Cur(t)
    case Remove(t) => t in s.threads
    case Finish(t) => t in s.threads
    case Mark(t) => t in s.threads
    case Bury(t) => t in s.threads
    case Clock => s.current.Cur?
    case Reschedule => s.current.Cur?
    case Enter => true
    case Leave => true
    case Start => s.current.NoThread? && AnyReady(s, max)
  }

  /** A section follows the test or the section before it in its call; it tests nothing itself. */
  ghost predicate CanHappen(y: System, e: Event, max: nat) {
    && Enabled(y.s, e, max)
    && (e.Unlink? ==> e.t in y.tested)
    && (e.Enlist? ==> e.t in y.unlinked)
    && (e.Finish? || e.Mark? ==> e.t in y.removed)
    && (e.Bury? ==> e.t in y.marked)
  }

  /** What the code does not test. The first section of rt_thread_resume needs a thread that is not ready (or
      is being deleted), the second one that is linked nowhere. So do the last steps of a deletion, and a wait of
      a thread that is suspended already. */
  ghost predicate Safe(s: State, e: Event)
    requires e.Unlink? || e.Enlist? || e.Wait? || e.Finish? || e.Mark? || e.Bury? ==> e.t in s.threads
  {
    match e
    case Unlink(t) => s.threads[t].stat != Ready || t in s.leaving
    case Enlist(t) => s.threads[t].place == Nowhere
    case Wait(t, w, flag) => MayWait(s.threads[t])
    case Finish(t) => s.threads[t].place == Nowhere
    case Mark(t) => s.threads[t].place == Nowhere || s.threads[t].place == Defunct
    case Bury(t) => s.threads[t].place == Nowhere && s.threads[t].stat == Closed
    case _ => true
  }

  ghost predicate PriosFit(s: State, max: nat) {
    forall t :: t in s.threads ==> s.threads[t].prio < max && s.threads[t].initPrio < max
  }

  ghost function Started(s: State, max: nat): State
    requires Good(s) && AnyReady(s, max)
  {
    ReadyThreads(s);
    var to := s.At(ReadyList(Highest(s, 0, max)))[0];
    var u := Unlinked(s.(current := Cur(to)), to);
    u.SetThread(to, u.threads[to].(stat := Running, yielding := false))
  }

  ghost function Unlocked(s: State): State {
    if s.lock - 1 <= 0 then s.(lock := 0) else s.(lock := s.lock - 1)
  }

  ghost function Step(s: State, e: Event, max: nat): State
    requires Good(s) && Enabled(s, e, max)
  {
    match e
    case Create(t, prio, tick) => s.SetThread(t, Thread(Init, false, prio, prio, tick, tick, Nowhere))
    case StartUp(t) => s.SetThread(t,
      s.threads[t].(stat := Suspended, yielding := false, prio := s.threads[t].initPrio))
    case Test(t) => s
    case Unlink(t) => Unlinked(s, t)
    case Enlist(t) => Insert(s, t)
    case Stop(t) => KernelSpec.Suspend(s, t)
    case Wait(t, w, flag) => SuspendOnGoodIff(s, t, w, flag); SuspendOn(s, t, w, flag)
    case Timeout(t) => Wake(s, t)
    case ChangePriority(t, prio) => SetPriority(s, t, prio)
    case Exit(t, defunct) => KernelSpec.Exit(s, t, defunct)
    case Remove(t) => Removed(s, t)
    case Finish(t) => Buried(ClosedNow(s, t), t)
    case Mark(t) => ClosedNow(s, t)
    case Bury(t) => Buried(s, t)
    case Clock => Tick(s, max)
    case Reschedule => Schedule(s, max)
    case Enter => s.(lock := s.lock + 1)
    case Leave =>
      SameLists(s, Unlocked(s));
      if s.lock - 1 <= 0 && s.current.Cur? then Schedule(Unlocked(s), max) else Unlocked(s)
    case Start => Started(s, max)
  }

  lemma SameLists(s: State, s': State)
    requires Good(s) && s'.threads == s.threads && s'.lists == s.lists && s'.current == s.current
    requires s'.leaving == s.leaving
    ensures Good(s')
  {
    forall r: Place | r != Nowhere ensures ListFits(s'.threads, s'.At(r), r) { assert s'.At(r) == s.At(r); }
  }

  lemma StartedGood(s: State, max: nat)
    requires Good(s) && AnyReady(s, max) && s.current.NoThread?
    ensures Good(Started(s, max))
  {
    ReadyThreads(s);
    var to := s.At(ReadyList(Highest(s, 0, max)))[0];
    var a := s.(current := Cur(to));
    assert ListsFit(a) by {
      forall r: Place | r != Nowhere ensures ListFits(a.threads, a.At(r), r) { assert a.At(r) == s.At(r); }
    }
    UnlinkedLists(a, to);
    var u := Unlinked(a, to);
    FieldsLists(u, to, u.threads[to].(stat := Running, yielding := false));
  }

  lemma StepGood(s: State, e: Event, max: nat)
    requires Good(s) && Enabled(s, e, max) && Safe(s, e)
    ensures Good(Step(s, e, max))
  {
    match e
    case Create(t, prio, tick) => FieldsLists(s, t, Thread(Init, false, prio, prio, tick, tick, Nowhere));
    case StartUp(t) => FieldsLists(s, t,
      s.threads[t].(stat := Suspended, yielding := false, prio := s.threads[t].initPrio));
    case Test(t) =>
    case Unlink(t) => UnlinkGood(s, t);
    case Enlist(t) => InsertGood(s, t);
    case Stop(t) => SuspendGood(s, t);
    case Wait(t, w, flag) => SuspendOnGoodIff(s, t, w, flag);
    case Timeout(t) => WakeGood(s, t);
    case ChangePriority(t, prio) => SetPriorityGood(s, t, prio);
    case Exit(t, defunct) => ExitGood(s, t, defunct);
    case Remove(t) => RemovedGood(s, t);
    case Finish(t) => DeletedGoodIff(s, t);
    case Mark(t) => DeletedGoodIff(s, t);
    case Bury(t) => DeletedGoodIff(s, t);
    case Clock => TickGood(s, max);
    case Reschedule => ScheduleGood(s, max);
    case Enter => SameLists(s, s.(lock := s.lock + 1));
    case Leave =>
      SameLists(s, Unlocked(s));
      if s.current.Cur? { ScheduleGood(Unlocked(s), max); }
    case Start => StartedGood(s, max);
  }

  /** Each step keeps every thread on the one queue its state dictates, except exactly a section or a wait that
      finds the thread as it does not expect it. */
  lemma StepGoodIff(s: State, e: Event, max: nat)
    requires Good(s) && Enabled(s, e, max)
    ensures Good(Step(s, e, max)) <==> Safe(s, e)
  {
    if Safe(s, e) {
      StepGood(s, e, max);
    } else if e.Enlist? {
      InsertTwice(s, e.t);
    } else if e.Unlink? {
      ReadyLost(s, e.t);
    } else if e.Wait? {
      SuspendOnGoodIff(s, e.t, e.w, e.flag);
    } else {
      DeletedGoodIff(s, e.t);
    }
  }

  /** Inserting a thread that is linked somewhere. */
  lemma InsertTwice(s: State, t: Id)
    requires Good(s) && t in s.threads && s.threads[t].place != Nowhere
    ensures !Good(Insert(s, t))
  {
    var p := s.threads[t].place;
    var r := Insert(s, t);
    assert ListFits(s.threads, s.At(p), p) && t in s.At(p);
    if s.current == Cur(t) {
      assert !PlaceFits(t, r.threads[t], r.current, t in r.leaving);
    } else if p == ReadyList(s.threads[t].prio) {
      TwiceIn(s.At(p), t);
      assert r.At(p) == s.At(p) + [t];
      assert !ListFits(r.threads, r.At(p), p);
    } else {
      assert t in r.At(p) && !ListFits(r.threads, r.At(p), p);
    }
  }

  lemma TwiceIn(q: seq<Id>, t: Id)
    requires t in q
    ensures !Distinct(q + [t])
  {
    var i :| 0 <= i < |q| && q[i] == t;
    var r := q + [t];
    assert r[i] == r[|q|];
  }

  /** Unlinking a ready thread. */
  lemma ReadyLost(s: State, t: Id)
    requires Good(s) && t in s.threads && s.threads[t].stat == Ready && t !in s.leaving
    ensures !Good(Unlinked(s, t))
  {
    assert PlaceFits(t, s.threads[t], s.current, false);
    var r := Unlinked(s, t);
    assert !PlaceFits(t, r.threads[t], r.current, false);
  }

  ghost predicate SamePrios(s: State, s': State) {
    && s'.threads.Keys == s.threads.Keys
    && forall t :: t in s.threads ==>
      s'.threads[t].prio == s.threads[t].prio && s'.threads[t].initPrio == s.threads[t].initPrio
  }

  lemma SchedulePrios(s: State, max: nat)
    requires Good(s) && s.current.Cur?
    ensures SamePrios(s, Schedule(s, max))
  {
    if s.lock == 0 && AnyReady(s, max) {
      Pick(s, max);
      var to := s.At(ReadyList(Highest(s, 0, max)))[0];
      if Schedule(s, max) == SwitchTo(s, to) { SwitchFields(s, to); }
    }
  }

  lemma WakePrios(s: State, t: Id)
    requires t in s.threads
    ensures SamePrios(s, Wake(s, t)) && SamePrios(s, Insert(s, t)) && SamePrios(s, KernelSpec.Suspend(s, t))
  {
    UnlinkPrios(s, t);
    InsertPrios(s, t);
    InsertPrios(Unlinked(s, t), t);
  }

  lemma UnlinkPrios(s: State, t: Id)
    requires t in s.threads
    ensures SamePrios(s, Unlinked(s, t)) && SamePrios(s, KernelSpec.Suspend(s, t))
  {
  }

  lemma InsertPrios(s: State, t: Id)
    requires t in s.threads
    ensures SamePrios(s, Insert(s, t))
  {
  }

  /** Steps change priorities only to valid ones. */
  lemma StepPrios(s: State, e: Event, max: nat)
    requires Good(s) && Enabled(s, e, max) && PriosFit(s, max)
    ensures PriosFit(Step(s, e, max), max)
  {
    match e
    case Enlist(t) => WakePrios(s, t);
    case Stop(t) => WakePrios(s, t);
    case Timeout(t) => WakePrios(s, t);
    case Clock => SliceOverGood(s); SchedulePrios(SliceOver(s), max);
    case Reschedule => SchedulePrios(s, max);
    case Leave =>
      SameLists(s, Unlocked(s));
      if s.current.Cur? { SchedulePrios(Unlocked(s), max); }
    case Start => ReadyThreads(s);
    case Wait(t, w, flag) => SuspendOnGoodIff(s, t, w, flag); WaitPrios(s, t, w, flag);
    case Unlink(t) => UnlinkPrios(s, t);
    case Exit(t, defunct) => UnlinkPrios(s, t);
    case Remove(t) => UnlinkPrios(s, t);
    case _ => FieldPrios(s, e, max);
  }

  lemma FieldPrios(s: State, e: Event, max: nat)
    requires Good(s) && Enabled(s, e, max) && PriosFit(s, max)
    requires e.Create? || e.StartUp? || e.Test? || e.ChangePriority? || e.Finish? || e.Mark? || e.Bury? || e.Enter?
    ensures PriosFit(Step(s, e, max), max)
  {
    match e
    case ChangePriority(t, prio) =>
      assert s.threads[t].initPrio < max;
    case _ =>
  }

  lemma WaitPrios(s: State, t: Id, w: nat, flag: Flag)
    requires Good(s) && t in s.threads
    requires forall x :: x in AfterSuspend(s, t).At(WaitList(w)) ==> x in AfterSuspend(s, t).threads
    ensures SamePrios(s, SuspendOn(s, t, w, flag))
  {
    UnlinkPrios(s, t);
    assert SamePrios(AfterSuspend(s, t), SuspendOn(s, t, w, flag));
  }

  /** What rt_schedule does: the most urgent ready thread that has been ready longest, if the current thread
      gives way to it. */
  lemma Pick(s: State, max: nat)
    requires Good(s) && s.current.Cur? && s.lock == 0 && AnyReady(s, max)
    ensures var p := Highest(s, 0, max);
      var to := s.At(ReadyList(p))[0];
      && to in s.threads && s.threads[to].stat == Ready && s.threads[to].prio == p && s.current != Cur(to)
      && (forall t :: t in s.threads && s.threads[t].stat == Ready && s.threads[t].place != Nowhere ==>
            p <= s.threads[t].prio || max <= s.threads[t].prio)
      && Schedule(s, max) == if GivesWay(s.threads[s.current.id], p) then SwitchTo(s, to) else s
  {
    ReadyThreads(s);
    var p := Highest(s, 0, max);
    assert s.At(ReadyList(p))[0] in s.At(ReadyList(p));
    forall t | t in s.threads && s.threads[t].stat == Ready && s.threads[t].place != Nowhere && s.threads[t].prio < max
      ensures p <= s.threads[t].prio
    {
      assert s.At(ReadyList(s.threads[t].prio)) != [];
    }
  }

  /** The end of a run: an event could not happen, or one left the broken state `last` behind, or the system is
      now as said. */
  datatype Run = Impossible | Broken(last: State) | Reached(now: System)

  ghost function Next(y: System, e: Event, max: nat): System
    requires Good(y.s) && Enabled(y.s, e, max)
  {
    var z := y.(s := Step(y.s, e, max));
    match e
    case Test(t) => z.(tested := y.tested + multiset{t})
    case Unlink(t) => z.(tested := y.tested - multiset{t}, unlinked := y.unlinked + multiset{t})
    case Enlist(t) => z.(unlinked := y.unlinked - multiset{t})
    case Remove(t) => z.(removed := y.removed + multiset{t})
    case Finish(t) => z.(removed := y.removed - multiset{t})
    case Mark(t) => z.(removed := y.removed - multiset{t}, marked := y.marked + multiset{t})
    case Bury(t) => z.(marked := y.marked - multiset{t})
    case _ => z
  }

  ghost function NextRun(y: System, e: Event, max: nat): (r: Run)
    requires Good(y.s) && PriosFit(y.s, max)
    ensures r.Reached? ==> Good(r.now.s) && PriosFit(r.now.s, max)
    ensures r.Broken? ==> !Good(r.last)
  {
    if !CanHappen(y, e, max) then Impossible
    else
      StepGoodIff(y.s, e, max);
      if !Safe(y.s, e) then Broken(Step(y.s, e, max))
      else
        StepPrios(y.s, e, max);
        Reached(Next(y, e, max))
  }

  const EMPTY := System(State(map[], map[], NoThread, 0, {}), multiset{}, multiset{}, multiset{}, multiset{})

  /** The run `es` from the start of the system. As long as no event finds its thread otherwise than it expects,
      each thread is on the one queue its state dictates. */
  ghost function After(es: seq<Event>, max: nat): (r: Run)
    ensures r.Reached? ==> Good(r.now.s) && PriosFit(r.now.s, max)
    ensures r.Broken? ==> !Good(r.last)
  {
    if es == [] then Reached(EMPTY) else
      var n := |es| - 1;
      match After(es[..n], max)
      case Impossible => Impossible
      case Broken(s) => Broken(s)
      case Reached(y) => NextRun(y, es[n], max)
  }

  /** The run so far and one more event. */
  ghost function On(r: Run, e: Event, max: nat): (r': Run)
    requires r.Reached? ==> Good(r.now.s) && PriosFit(r.now.s, max)
    ensures r'.Reached? ==> Good(r'.now.s) && PriosFit(r'.now.s, max)
    ensures r.Broken? ==> r' == r
  {
    if r.Reached? then NextRun(r.now, e, max) else r
  }

  lemma AfterOn(es: seq<Event>, e: Event, max: nat)
    ensures After(es + [e], max) == On(After(es, max), e, max)
  {
    assert (es + [e])[..|es|] == es;
  }

  lemma LastStep(es: seq<Event>, e: Event, max: nat)
    requires After(es + [e], max).Reached?
    ensures After(es, max).Reached? && Enabled(After(es, max).now.s, e, max) && Safe(After(es, max).now.s, e)
    ensures After(es + [e], max).now.s == Step(After(es, max).now.s, e, max)
  {
    assert (es + [e])[..|es|] == es;
  }

  // ---------- whom the scheduler runs ----------

  /** The thread that runs is at least as urgent as every ready thread, but one that is being deleted. */
  ghost predicate MostUrgent(s: State) {
    && s.current.Cur? && s.current.id in s.threads && s.threads[s.current.id].stat == Running
    && forall t :: t in s.threads && s.threads[t].stat == Ready && s.threads[t].place != Nowhere ==>
         s.threads[s.current.id].prio <= s.threads[t].prio
  }

  /** With the scheduler unlocked and something to run, the thread that runs after rt_schedule is at least as
      urgent as every ready thread. */
  lemma ScheduleMostUrgent(s: State, max: nat)
    requires Good(s) && PriosFit(s, max) && s.current.Cur? && s.lock == 0
    requires s.threads[s.current.id].stat == Running || AnyReady(s, max)
    ensures MostUrgent(Schedule(s, max))
  {
    ReadyThreads(s);
    forall t | t in s.threads && s.threads[t].stat == Ready && s.threads[t].place != Nowhere ensures AnyReady(s, max) {
      assert s.At(ReadyList(s.threads[t].prio)) != [];
    }
    if AnyReady(s, max) {
      Pick(s, max);
      var p := Highest(s, 0, max);
      if GivesWay(s.threads[s.current.id], p) {
        var to := s.At(ReadyList(p))[0];
        SwitchFields(s, to);
      }
    }
  }

  /** A thread newly chosen is the head of its ready list, the one ready longest; an old thread that still could
      run becomes the last of its ready list; all other ready lists and their order stay. */
  lemma ScheduleInTurn(s: State, max: nat)
    requires Good(s) && s.current.Cur? && s.lock == 0 && Schedule(s, max) != s
    ensures var s', from := Schedule(s, max), s.threads[s.current.id];
      && s'.current.Cur? && s'.current.id in s.threads
      && var to := s'.current.id;
         var p := s.threads[to].prio;
         && s.At(ReadyList(p)) != [] && to == s.At(ReadyList(p))[0]
         && forall r: nat :: s'.At(ReadyList(r)) ==
              (if r == p then s.At(ReadyList(r))[1..] else s.At(ReadyList(r)))
              + (if from.stat == Running && from.prio == r then [s.current.id] else [])
  {
    Pick(s, max);
    var to := s.At(ReadyList(Highest(s, 0, max)))[0];
    SwitchFields(s, to);
    SwitchQueue(s, to);
  }

  /** A switch changes nothing but states, yield flags and places. */
  lemma SwitchFields(s: State, to: Id)
    requires Good(s) && s.current.Cur? && to in s.threads && s.threads[to].stat == Ready
    ensures var s', from := SwitchTo(s, to), s.current.id;
      && s'.threads.Keys == s.threads.Keys && s'.current == Cur(to) && s'.lock == s.lock && to != from
      && s'.threads[to] == s.threads[to].(stat := Running, place := Nowhere)
      && s'.threads[from] == (if s.threads[from].stat == Running
           then s.threads[from].(stat := Ready, yielding := false, place := ReadyList(s.threads[from].prio))
           else s.threads[from])
      && forall t :: t in s.threads && t != to && t != from ==> s'.threads[t] == s.threads[t]
  {
  }

  /** The ready lists after a switch. */
  lemma SwitchQueue(s: State, to: Id)
    requires Good(s) && s.current.Cur? && to in s.threads && s.threads[to].stat == Ready
    requires var q := s.At(ReadyList(s.threads[to].prio)); q != [] && q[0] == to
    ensures var s', from := SwitchTo(s, to), s.threads[s.current.id];
      forall r: nat :: s'.At(ReadyList(r)) ==
        (if r == s.threads[to].prio then s.At(ReadyList(r))[1..] else s.At(ReadyList(r)))
        + (if from.stat == Running && from.prio == r then [s.current.id] else [])
  {
    ReadyThreads(s);
    var s', from := SwitchTo(s, to), s.current.id;
    forall r: nat ensures s'.At(ReadyList(r)) ==
      (if r == s.threads[to].prio then s.At(ReadyList(r))[1..] else s.At(ReadyList(r)))
      + (if s.threads[from].stat == Running && s.threads[from].prio == r then [from] else [])
    {
      var q := s.At(ReadyList(r));
      assert ListFits(s.threads, q, ReadyList(r));
      WithoutIn(q, to);
      WithoutSnoc(q, from, to);
      assert q + [] == q;
      if r == s.threads[to].prio {
        HeadGone(q);
        assert q[1..] + [] == q[1..];
      }
    }
  }

  lemma HeadGone(q: seq<Id>)
    requires q != [] && Distinct(q)
    ensures Without(q, q[0]) == q[1..]
  {
    WithoutIn(q[1..], q[0]);
    assert q[0] !in q[1..];
  }
}
