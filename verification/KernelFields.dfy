/** What the events of a run do to single threads: the state diagram of threads, their places, and their priorities. */
module KernelFields {
  import opened StableOrder
  import opened WaitQueue
  import opened KernelSpec
  import opened KernelTheorems

  // ---------- priorities ----------

  datatype Option<T> = None | Some(value: T)

  /** Current and initial priority of a thread. */
  datatype Prios = Prios(now: nat, initial: nat)

  /** The priorities of thread `t` set last by the events, if they create it. */
  function SetLast(es: seq<Event>, t: Id): Option<Prios> {
    if es == [] then None else
      var n := |es| - 1;
      var before := SetLast(es[..n], t);
      match es[n]
      case Create(x, prio, _) => if x == t then Some(Prios(prio, prio)) else before
      case StartUp(x) =>
        if x == t && before.Some? then Some(Prios(before.value.initial, before.value.initial)) else before
      case ChangePriority(x, prio) =>
        if x == t && before.Some? then Some(Prios(prio, before.value.initial)) else before
      case _ => before
  }

  ghost function PriosOf(s: State, t: Id): Option<Prios> {
    if t in s.threads then Some(Prios(s.threads[t].prio, s.threads[t].initPrio)) else None
  }

  /** What one event does to the priorities of a thread. */
  lemma StepSets(s: State, e: Event, max: nat, t: Id)
    requires Good(s) && Enabled(s, e, max) && PriosFit(s, max)
    ensures var r, p := PriosOf(Step(s, e, max), t), PriosOf(s, t);
      match e
      case Create(x, prio, _) => r == if x == t then Some(Prios(prio, prio)) else p
      case StartUp(x) => r == if x == t then Some(Prios(p.value.initial, p.value.initial)) else p
      case ChangePriority(x, prio) => r == if x == t then Some(Prios(prio, p.value.initial)) else p
      case _ => r == p
  {
    match e
    case ChangePriority(x, prio) => PriorityExact(s, x, prio);
    case Create(x, prio, tick) =>
    case StartUp(x) =>
    case _ => KeepsPrios(s, e, max);
  }

  lemma KeepsPrios(s: State, e: Event, max: nat)
    requires Good(s) && Enabled(s, e, max) && !e.Create? && !e.StartUp? && !e.ChangePriority?
    ensures SamePrios(s, Step(s, e, max))
  {
    if IsSwitch(e) {
      SwitchKeepsPrios(s, e, max);
    } else {
      match e
      case Unlink(t) => UnlinkPrios(s, t);
      case Enlist(t) => InsertPrios(s, t);
      case Stop(t) => UnlinkPrios(s, t);
      case Timeout(t) => WakePrios(s, t);
      case Exit(t, defunct) => UnlinkPrios(s, t);
      case Remove(t) => UnlinkPrios(s, t);
      case Wait(t, w, flag) => SuspendOnGoodIff(s, t, w, flag); WaitPrios(s, t, w, flag);
      case _ =>
    }
  }

  /** Events in which the scheduler chooses a thread. */
  ghost predicate IsSwitch(e: Event) {
    e.Clock? || e.Reschedule? || e.Leave? || e.Start?
  }

  lemma SwitchKeepsPrios(s: State, e: Event, max: nat)
    requires Good(s) && Enabled(s, e, max) && IsSwitch(e)
    ensures SamePrios(s, Step(s, e, max))
  {
    match e
    case Clock => SliceOverGood(s); SchedulePrios(SliceOver(s), max);
    case Reschedule => SchedulePrios(s, max);
    case Leave =>
      SameLists(s, Unlocked(s));
      if s.current.Cur? { SchedulePrios(Unlocked(s), max); }
    case Start => ReadyThreads(s);
  }

  /** At the end of every run the priorities of each thread are those set last: by its creation, by its start-up, which
      goes back to the initial one, or by a change. */
  lemma {:induction false} PriorityIsLast(es: seq<Event>, max: nat, t: Id)
    requires After(es, max).Reached?
    ensures PriosOf(After(es, max).now.s, t) == SetLast(es, t)
  {
    if es != [] {
      var n := |es| - 1;
      assert es == es[..n] + [es[n]];
      LastStep(es[..n], es[n], max);
      PriorityIsLast(es[..n], max, t);
      StepSets(After(es[..n], max).now.s, es[n], max, t);
    }
  }

  // ---------- the state diagram ----------

  /** The thread the event is about. */
  ghost predicate IsAbout(e: Event, t: Id) {
    !e.Clock? && !e.Reschedule? && !e.Enter? && !e.Leave? && !e.Start? && e.t == t
  }

  /** The state of a thread after an event about it. */
  function NextStat(stat: Stat, e: Event, isCurrent: bool): Stat {
    match e
    case StartUp(_) => Suspended
    case Enlist(_) => if isCurrent then Running else Ready
    case Timeout(_) => if isCurrent then Running else Ready
    case Stop(_) => Suspended
    case Wait(_, _, _) => if stat == Ready || stat == Running then Suspended else stat
    case Exit(_, _) => Closed
    case Finish(_) => Closed
    case Mark(_) => Closed
    case _ => stat
  }

  /** Only the scheduler starts and interrupts threads: a running one that gives way becomes ready, a ready one that
      becomes current runs. */
  ghost predicate Switched(s: State, r: State, t: Id)
    requires t in s.threads && t in r.threads
  {
    var a, b := s.threads[t].stat, r.threads[t].stat;
    if (s.current == Cur(t)) == (r.current == Cur(t)) then b == a
    else if r.current == Cur(t) then a == Ready && b == Running
    else b == if a == Running then Ready else a
  }

  /** The state diagram of threads: how each event changes the state of each thread. */
  lemma StatDiagram(s: State, e: Event, max: nat, t: Id)
    requires Good(s) && Enabled(s, e, max) && t in s.threads
    ensures var r := Step(s, e, max);
      && t in r.threads
      && if IsSwitch(e) then Switched(s, r, t)
         else r.threads[t].stat == if IsAbout(e, t) then NextStat(s.threads[t].stat, e, s.current == Cur(t))
                                   else s.threads[t].stat
  {
    if IsSwitch(e) { SwitchStat(s, e, max, t); } else { CallStat(s, e, max, t); }
  }

  lemma SwitchStat(s: State, e: Event, max: nat, t: Id)
    requires Good(s) && Enabled(s, e, max) && t in s.threads && IsSwitch(e)
    ensures t in Step(s, e, max).threads && Switched(s, Step(s, e, max), t)
  {
    match e
    case Clock => SliceOverGood(s); ScheduleStat(SliceOver(s), max, t);
    case Reschedule => ScheduleStat(s, max, t);
    case Leave =>
      SameLists(s, Unlocked(s));
      if s.current.Cur? { ScheduleStat(Unlocked(s), max, t); }
    case Start => ReadyThreads(s);
  }

  lemma CallStat(s: State, e: Event, max: nat, t: Id)
    requires Good(s) && Enabled(s, e, max) && t in s.threads && !IsSwitch(e)
    ensures var r := Step(s, e, max);
      && t in r.threads
      && r.threads[t].stat == if IsAbout(e, t) then NextStat(s.threads[t].stat, e, s.current == Cur(t))
                              else s.threads[t].stat
  {
    match e
    case Wait(x, w, flag) => SuspendOnGoodIff(s, x, w, flag);
    case ChangePriority(x, prio) => PriorityExact(s, x, prio);
    case _ =>
  }

  lemma ScheduleStat(s: State, max: nat, t: Id)
    requires Good(s) && s.current.Cur? && t in s.threads
    ensures t in Schedule(s, max).threads && Switched(s, Schedule(s, max), t)
  {
    if s.lock == 0 && AnyReady(s, max) {
      Pick(s, max);
      var to := s.At(ReadyList(Highest(s, 0, max)))[0];
      if Schedule(s, max) == SwitchTo(s, to) { SwitchFields(s, to); }
    }
  }

  /** Where an event puts the thread it is about. */
  lemma PlacesAfter(s: State, e: Event, max: nat)
    requires Good(s) && Enabled(s, e, max) && Safe(s, e)
    ensures !e.Clock? && !e.Reschedule? && !e.Enter? && !e.Leave? && !e.Start? ==>
      var r, t := Step(s, e, max), e.t;
      && t in r.threads
      && (e.Create? ==> r.threads[t] == Thread(Init, false, e.prio, e.prio, e.tick, e.tick, Nowhere))
      && (e.Unlink? || e.Remove? ==> r.threads[t].place == Nowhere)
      && (e.Enlist? || e.Timeout? ==>
            r.threads[t].place == if s.current == Cur(t) then Nowhere else ReadyList(s.threads[t].prio))
      && (e.Wait? ==> r.threads[t].place == WaitList(e.w))
      && (e.Exit? ==> r.threads[t].place == if e.defunct then Defunct else Nowhere)
      && (e.Finish? || e.Bury? ==> r.threads[t].place == Defunct && r.At(Defunct) == [t] + s.At(Defunct))
  {
    match e
    case Wait(t, w, flag) => SuspendOnGoodIff(s, t, w, flag);
    case _ =>
  }

  // ---------- the lock ----------

  /** How deep the scheduler is locked after the events. */
  function LockDepth(es: seq<Event>): nat {
    if es == [] then 0 else
      var n := |es| - 1;
      var d := LockDepth(es[..n]);
      if es[n].Enter? then d + 1 else if es[n].Leave? && d > 0 then d - 1 else d
  }

  lemma StepLock(s: State, e: Event, max: nat)
    requires Good(s) && Enabled(s, e, max) && s.lock >= 0
    ensures var r := Step(s, e, max);
      && r.lock == (if e.Enter? then s.lock + 1 else if e.Leave? && s.lock > 0 then s.lock - 1 else s.lock)
      && (r.lock > 0 && !e.Start? ==> r.current == s.current)
  {
    match e
    case Clock => SliceOverGood(s); ScheduleKeepsLock(SliceOver(s), max);
    case Reschedule => ScheduleKeepsLock(s, max);
    case Leave =>
      SameLists(s, Unlocked(s));
      if s.current.Cur? { ScheduleKeepsLock(Unlocked(s), max); }
    case Start => ReadyThreads(s);
    case Wait(t, w, flag) => SuspendOnGoodIff(s, t, w, flag);
    case _ =>
  }

  lemma ScheduleKeepsLock(s: State, max: nat)
    requires Good(s) && s.current.Cur?
    ensures Schedule(s, max).lock == s.lock && (s.lock != 0 ==> Schedule(s, max) == s)
  {
    if s.lock == 0 && AnyReady(s, max) {
      Pick(s, max);
      var to := s.At(ReadyList(Highest(s, 0, max)))[0];
      if Schedule(s, max) == SwitchTo(s, to) { SwitchFields(s, to); }
    }
  }

  /** At the end of every run the lock count is the number of calls of rt_enter_critical that no call of
      rt_exit_critical has undone, and while it is above 0 the current thread stays. */
  lemma {:induction false} LockIsDepth(es: seq<Event>, max: nat)
    requires After(es, max).Reached?
    ensures After(es, max).now.s.lock == LockDepth(es)
    ensures es != [] && LockDepth(es) > 0 && !es[|es| - 1].Start? ==>
      After(es[..|es| - 1], max).Reached? &&
      After(es, max).now.s.current == After(es[..|es| - 1], max).now.s.current
  {
    if es != [] {
      var n := |es| - 1;
      assert es == es[..n] + [es[n]];
      LastStep(es[..n], es[n], max);
      LockIsDepth(es[..n], max);
      StepLock(After(es[..n], max).now.s, es[n], max);
    }
  }

  // ---------- closed threads ----------

  ghost predicate IsClosed(s: State, t: Id) {
    t in s.threads && s.threads[t].stat == Closed
  }

  /** A closed thread never runs again and is never ready again, unless a call of rt_thread_resume or rt_thread_suspend
      that had tested it before goes on. */
  lemma {:induction false} StaysClosed(es: seq<Event>, mid: seq<Event>, t: Id, max: nat)
    requires After(es, max).Reached? && After(es + mid, max).Reached? && IsClosed(After(es, max).now.s, t)
    requires forall i :: 0 <= i < |mid| ==> mid[i] != Enlist(t) && mid[i] != Stop(t)
    ensures IsClosed(After(es + mid, max).now.s, t)
  {
    if mid == [] {
      assert es + mid == es;
    } else {
      var n := |mid| - 1;
      AppendLast(es, mid);
      LastClosed(es + mid[..n], mid[n], t, max);
      StaysClosed(es, mid[..n], t, max);
    }
  }

  lemma AppendLast(es: seq<Event>, mid: seq<Event>)
    requires mid != []
    ensures es + mid == es + mid[..|mid| - 1] + [mid[|mid| - 1]]
  {
  }

  lemma LastClosed(es: seq<Event>, e: Event, t: Id, max: nat)
    requires After(es + [e], max).Reached? && e != Enlist(t) && e != Stop(t)
    ensures After(es, max).Reached?
    ensures IsClosed(After(es, max).now.s, t) ==> IsClosed(After(es + [e], max).now.s, t)
  {
    LastStep(es, e, max);
    var s := After(es, max).now.s;
    if IsClosed(s, t) { StatDiagram(s, e, max, t); }
  }
}
