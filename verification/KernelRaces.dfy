/** Sections of different calls in between each other: where a run breaks the lists of the kernel, and which calls
    are safe whatever happens to other threads in the meantime. */
module KernelRaces {
  import opened StableOrder
  import opened WaitQueue
  import opened KernelSpec
  import opened KernelTheorems

  // ---------- rt_thread_resume ----------

  /** Events that start, wake or close thread `t`, link it or take it off a list it waits in. */
  predicate About(e: Event, t: Id) {
    match e
    case StartUp(x) => x == t
    case Unlink(x) => x == t
    case Enlist(x) => x == t
    case Timeout(x) => x == t
    case Wait(x, _, _) => x == t
    case Exit(x, _) => x == t
    case Finish(x) => x == t
    case Mark(x) => x == t
    case Bury(x) => x == t
    case Create(x, _, _) => x == t
    case _ => false
  }

  /** Nothing else ends a suspension, or links a suspended thread. */
  lemma StaysSuspended(s: State, e: Event, t: Id, max: nat)
    requires Good(s) && Enabled(s, e, max) && !About(e, t) && t in s.threads && s.threads[t].stat == Suspended
    ensures var r := Step(s, e, max);
      t in r.threads && r.threads[t].stat == Suspended &&
        (s.threads[t].place == Nowhere ==> r.threads[t].place == Nowhere)
  {
    match e
    case Clock => SliceOverGood(s); ScheduleSuspended(SliceOver(s), t, max);
    case Reschedule => ScheduleSuspended(s, t, max);
    case Leave =>
      SameLists(s, Unlocked(s));
      if s.current.Cur? { ScheduleSuspended(Unlocked(s), t, max); }
    case Start => ReadyThreads(s);
    case Wait(x, w, flag) => SuspendOnGoodIff(s, x, w, flag);
    case _ =>
  }

  lemma ScheduleSuspended(s: State, t: Id, max: nat)
    requires Good(s) && s.current.Cur? && t in s.threads && s.threads[t].stat == Suspended
    ensures var r := Schedule(s, max); t in r.threads && r.threads[t] == s.threads[t]
  {
    if s.lock == 0 && AnyReady(s, max) {
      Pick(s, max);
      var to := s.At(ReadyList(Highest(s, 0, max)))[0];
      if Schedule(s, max) == SwitchTo(s, to) { SwitchFields(s, to); }
    }
  }

  /** Thread `t` is suspended in `s` and still in `r`; if it was linked nowhere, it still is. */
  ghost predicate SleepsOn(s: State, r: State, t: Id) {
    && t in s.threads && s.threads[t].stat == Suspended && t in r.threads && r.threads[t].stat == Suspended
    && (s.threads[t].place == Nowhere ==> r.threads[t].place == Nowhere)
  }

  lemma LastStays(es: seq<Event>, e: Event, t: Id, max: nat)
    requires After(es + [e], max).Reached? && !About(e, t)
    ensures After(es, max).Reached?
    ensures var s := After(es, max).now.s;
      t in s.threads && s.threads[t].stat == Suspended ==> SleepsOn(s, After(es + [e], max).now.s, t)
  {
    LastStep(es, e, max);
    var s := After(es, max).now.s;
    if t in s.threads && s.threads[t].stat == Suspended { StaysSuspended(s, e, t, max); }
  }

  /** While nothing about `t` happens, a suspended thread stays as it is. */
  lemma {:induction false} Undisturbed(es: seq<Event>, mid: seq<Event>, t: Id, max: nat)
    requires After(es, max).Reached? && After(es + mid, max).Reached?
    requires forall i :: 0 <= i < |mid| ==> !About(mid[i], t)
    requires var s := After(es, max).now.s; t in s.threads && s.threads[t].stat == Suspended
    ensures SleepsOn(After(es, max).now.s, After(es + mid, max).now.s, t)
  {
    if mid == [] {
      assert es + mid == es;
    } else {
      var n := |mid| - 1;
      AppendLast(es, mid);
      LastStays(es + mid[..n], mid[n], t, max);
      Undisturbed(es, mid[..n], t, max);
    }
  }

  lemma AppendLast(es: seq<Event>, mid: seq<Event>)
    requires mid != []
    ensures es + mid == es + mid[..|mid| - 1] + [mid[|mid| - 1]]
  {
  }

  /** One rt_thread_resume at a time is safe: after its test the first section cannot go wrong, nor the second
      after that, whatever happens in between to other threads. */
  lemma OneResumeSafe(es: seq<Event>, a: seq<Event>, b: seq<Event>, t: Id, max: nat)
    requires var es1 := es + [Test(t)] + a;
      After(es, max).Reached? && After(es + [Test(t)], max).Reached? && After(es1, max).Reached?
    requires forall i :: 0 <= i < |a| ==> !About(a[i], t)
    requires forall i :: 0 <= i < |b| ==> !About(b[i], t)
    ensures var es2 := es + [Test(t)] + a + [Unlink(t)];
      && !After(es2, max).Broken?
      && (After(es2, max).Reached? && After(es2 + b, max).Reached? ==> !After(es2 + b + [Enlist(t)], max).Broken?)
  {
    AfterOn(es, Test(t), max);
    Undisturbed(es + [Test(t)], a, t, max);
    var es1 := es + [Test(t)] + a;
    AfterOn(es1, Unlink(t), max);
    var es2 := es1 + [Unlink(t)];
    if After(es2, max).Reached? && After(es2 + b, max).Reached? {
      UnlinkedLists(After(es1, max).now.s, t);
      Undisturbed(es2, b, t, max);
      AfterOn(es2 + b, Enlist(t), max);
    }
  }

  ghost predicate Fit(y: System, max: nat) {
    Good(y.s) && PriosFit(y.s, max)
  }

  /** Thread `t` is suspended and another thread is current. */
  ghost predicate Asleep(s: State, t: Id) {
    t in s.threads && s.threads[t].stat == Suspended && s.current != Cur(t)
  }

  lemma HalfResume(y: System, t: Id, max: nat)
    requires Fit(y, max) && Asleep(y.s, t)
    ensures var z := y.(s := Unlinked(y.s, t), unlinked := y.unlinked + multiset{t});
      && On(On(Reached(y), Test(t), max), Unlink(t), max) == Reached(z)
      && Fit(z, max) && Asleep(z.s, t) && z.s.threads[t].place == Nowhere
  {
    UnlinkedLists(y.s, t);
    var a := y.(tested := y.tested + multiset{t});
    assert On(Reached(y), Test(t), max) == Reached(a);
    assert a.tested - multiset{t} == y.tested;
  }

  /** The second section for a thread linked nowhere. */
  lemma SecondHalf(y: System, t: Id, max: nat)
    requires Fit(y, max) && Asleep(y.s, t) && y.s.threads[t].place == Nowhere && t in y.unlinked
    ensures var z := y.(s := Insert(y.s, t), unlinked := y.unlinked - multiset{t});
      && On(Reached(y), Enlist(t), max) == Reached(z) && Fit(z, max)
      && t in z.s.threads && z.s.threads[t].stat == Ready && z.s.threads[t].place == ReadyList(z.s.threads[t].prio)
      && z.s.threads.Keys == y.s.threads.Keys && z.s.current == y.s.current && z.s.leaving == y.s.leaving
  {
  }

  /** Two at a time are not: an interrupt that resumes the thread between the two sections leaves it on its ready
      list, and the second section then links it once more. */
  lemma ResumeInBetween(y: System, t: Id, max: nat)
    requires Fit(y, max) && Asleep(y.s, t)
    ensures var a := On(On(Reached(y), Test(t), max), Unlink(t), max);
      var b := On(On(On(a, Test(t), max), Unlink(t), max), Enlist(t), max);
      b.Reached? && On(b, Enlist(t), max).Broken?
  {
    HalfResume(y, t, max);
    var a := y.(s := Unlinked(y.s, t), unlinked := y.unlinked + multiset{t});
    HalfResume(a, t, max);
    SecondHalf(a.(s := Unlinked(a.s, t), unlinked := a.unlinked + multiset{t}), t, max);
  }

  /** Nor between the test and the first section, which then takes the ready thread off its list. */
  lemma ResumeBeforehand(y: System, t: Id, max: nat)
    requires Fit(y, max) && Asleep(y.s, t) && t !in y.s.leaving
    ensures var a := On(On(On(On(Reached(y), Test(t), max), Test(t), max), Unlink(t), max), Enlist(t), max);
      a.Reached? && On(a, Unlink(t), max).Broken?
  {
    var a := y.(tested := y.tested + multiset{t});
    assert On(Reached(y), Test(t), max) == Reached(a);
    HalfResume(a, t, max);
    SecondHalf(a.(s := Unlinked(a.s, t), unlinked := a.unlinked + multiset{t}), t, max);
  }

  /** From the start of the system: thread 1 is created and started, and resumed once more by an interrupt. */
  lemma DoubleResume()
    ensures var a := On(On(Reached(EMPTY), Create(1, 0, 5), 32), StartUp(1), 32);
      var b := On(On(On(On(a, Test(1), 32), Unlink(1), 32), Test(1), 32), Unlink(1), 32);
      On(On(b, Enlist(1), 32), Enlist(1), 32).Broken?
  {
    OneCreated();
    ResumeInBetween(On(On(Reached(EMPTY), Create(1, 0, 5), 32), StartUp(1), 32).now, 1, 32);
  }

  lemma OneCreated()
    ensures var a := On(On(Reached(EMPTY), Create(1, 0, 5), 32), StartUp(1), 32);
      && a.Reached? && Fit(a.now, 32) && Asleep(a.now.s, 1)
      && a.now.s.threads.Keys == {1} && a.now.s.current == NoThread && a.now.s.leaving == {}
  {
    assert After([], 32) == Reached(EMPTY);
  }

  // ---------- rt_thread_delete and rt_thread_detach ----------

  /** Events that could link thread `t` or change its state. */
  predicate Touches(e: Event, t: Id) {
    About(e, t) || (e.Stop? && e.t == t) || (e.ChangePriority? && e.t == t)
  }

  /** Nothing else changes a thread that is linked nowhere and not current. */
  lemma StaysAway(s: State, e: Event, t: Id, max: nat)
    requires Good(s) && Enabled(s, e, max) && !Touches(e, t)
    requires t in s.threads && s.threads[t].place == Nowhere && s.current != Cur(t)
    ensures IsAway(Step(s, e, max), t, s.threads[t].stat)
  {
    match e
    case Clock => SliceOverGood(s); ScheduleAway(SliceOver(s), t, max);
    case Reschedule => ScheduleAway(s, t, max);
    case Leave =>
      SameLists(s, Unlocked(s));
      if s.current.Cur? { ScheduleAway(Unlocked(s), t, max); }
    case Start => StartAway(s, t, max);
    case Wait(x, w, flag) => SuspendOnGoodIff(s, x, w, flag);
    case _ =>
  }

  /** Thread `t` is linked nowhere and not current, and has this state. */
  ghost predicate IsAway(s: State, t: Id, stat: Stat) {
    t in s.threads && s.threads[t].place == Nowhere && s.current != Cur(t) && s.threads[t].stat == stat
  }

  lemma ScheduleAway(s: State, t: Id, max: nat)
    requires Good(s) && s.current.Cur? && t in s.threads && IsAway(s, t, s.threads[t].stat)
    ensures IsAway(Schedule(s, max), t, s.threads[t].stat)
  {
    if s.lock == 0 && AnyReady(s, max) {
      Pick(s, max);
      var p := Highest(s, 0, max);
      var to := s.At(ReadyList(p))[0];
      assert ListFits(s.threads, s.At(ReadyList(p)), ReadyList(p)) && to in s.At(ReadyList(p));
      if Schedule(s, max) == SwitchTo(s, to) { SwitchFields(s, to); }
    }
  }

  lemma StartAway(s: State, t: Id, max: nat)
    requires Good(s) && s.current.NoThread? && AnyReady(s, max) && t in s.threads && IsAway(s, t, s.threads[t].stat)
    ensures IsAway(Started(s, max), t, s.threads[t].stat)
  {
    ReadyThreads(s);
    var p := Highest(s, 0, max);
    assert ListFits(s.threads, s.At(ReadyList(p)), ReadyList(p)) && s.At(ReadyList(p))[0] in s.At(ReadyList(p));
  }

  lemma LastAway(es: seq<Event>, e: Event, t: Id, max: nat, stat: Stat)
    requires After(es + [e], max).Reached? && !Touches(e, t)
    ensures After(es, max).Reached?
    ensures IsAway(After(es, max).now.s, t, stat) ==> IsAway(After(es + [e], max).now.s, t, stat)
  {
    LastStep(es, e, max);
    if IsAway(After(es, max).now.s, t, stat) { StaysAway(After(es, max).now.s, e, t, max); }
  }

  lemma {:induction false} LeftAway(es: seq<Event>, mid: seq<Event>, t: Id, max: nat, stat: Stat)
    requires After(es, max).Reached? && After(es + mid, max).Reached? && IsAway(After(es, max).now.s, t, stat)
    requires forall i :: 0 <= i < |mid| ==> !Touches(mid[i], t)
    ensures IsAway(After(es + mid, max).now.s, t, stat)
  {
    if mid == [] {
      assert es + mid == es;
    } else {
      var n := |mid| - 1;
      AppendLast(es, mid);
      LastAway(es + mid[..n], mid[n], t, max, stat);
      LeftAway(es, mid[..n], t, max, stat);
    }
  }

  /** The first section of a deletion. */
  lemma RemoveNext(y: System, t: Id, max: nat)
    requires Fit(y, max) && t in y.s.threads
    ensures var z := y.(s := Removed(y.s, t), removed := y.removed + multiset{t});
      && On(Reached(y), Remove(t), max) == Reached(z) && Fit(z, max) && t in z.s.threads && z.s.current == y.s.current
      && z.s.threads[t].place == Nowhere && z.s.threads[t].stat == y.s.threads[t].stat
  {
    RemovedGood(y.s, t);
  }

  /** Between the sections a ready thread is in no list at all. */
  lemma ReadyNowhere(y: System, t: Id, max: nat, p: Place)
    requires Fit(y, max) && t in y.s.threads && y.s.threads[t].stat == Ready && p != Nowhere
    ensures var r := On(Reached(y), Remove(t), max);
      r.Reached? && t in r.now.s.threads && r.now.s.threads[t].stat == Ready && t !in r.now.s.At(p)
  {
    RemoveNext(y, t, max);
    var r := Removed(y.s, t);
    assert ListFits(r.threads, r.At(p), p);
  }

  /** A deletion of another thread is safe when nothing touches the thread until it ends. */
  lemma DeleteSafe(es: seq<Event>, mid: seq<Event>, t: Id, max: nat)
    requires After(es, max).Reached? && t in After(es, max).now.s.threads && After(es, max).now.s.current != Cur(t)
    requires After(es + [Remove(t)] + mid, max).Reached? && forall i :: 0 <= i < |mid| ==> !Touches(mid[i], t)
    ensures var r := After(es + [Remove(t)] + mid, max); !On(r, Finish(t), max).Broken? && !On(r, Mark(t), max).Broken?
  {
    RemoveAway(es, t, max);
    LeftAway(es + [Remove(t)], mid, t, max, After(es, max).now.s.threads[t].stat);
    EndSafe(After(es + [Remove(t)] + mid, max).now, t, max);
  }

  lemma RemoveAway(es: seq<Event>, t: Id, max: nat)
    requires After(es, max).Reached? && t in After(es, max).now.s.threads && After(es, max).now.s.current != Cur(t)
    ensures var r := After(es + [Remove(t)], max);
      r.Reached? && IsAway(r.now.s, t, After(es, max).now.s.threads[t].stat)
  {
    AfterOn(es, Remove(t), max);
    RemoveNext(After(es, max).now, t, max);
  }

  lemma EndSafe(y: System, t: Id, max: nat)
    requires Fit(y, max) && t in y.s.threads && y.s.threads[t].place == Nowhere
    ensures !On(Reached(y), Finish(t), max).Broken? && !On(Reached(y), Mark(t), max).Broken?
  {
  }

  /** And so is the last section of rt_thread_detach, when nothing touches the closed thread. */
  lemma DetachSafe(es: seq<Event>, mid: seq<Event>, t: Id, max: nat)
    requires After(es, max).Reached? && IsAway(After(es, max).now.s, t, Closed)
    requires After(es + mid, max).Reached? && forall i :: 0 <= i < |mid| ==> !Touches(mid[i], t)
    ensures !On(After(es + mid, max), Bury(t), max).Broken?
  {
    LeftAway(es, mid, t, max, Closed);
  }

  /** A thread that deletes itself runs when it ends the deletion, and is in no list then. */
  lemma SelfDeleteSafe(s: State, t: Id, max: nat)
    requires Good(s) && t in s.threads && s.current == Cur(t) && s.threads[t].stat == Running
    ensures Good(Step(s, Finish(t), max)) && Good(Step(s, Mark(t), max))
  {
    DeletedGoodIff(s, t);
  }

  /** A timeout between the sections puts the thread on its ready list, and the second section links it into the
      defunct list as well. */
  lemma TimeoutInBetween(y: System, t: Id, max: nat)
    requires Fit(y, max) && Asleep(y.s, t)
    ensures var r := On(On(Reached(y), Remove(t), max), Timeout(t), max);
      r.Reached? && On(r, Finish(t), max).Broken? && On(r, Mark(t), max).Broken?
  {
    RemoveNext(y, t, max);
    var a := y.(s := Removed(y.s, t), removed := y.removed + multiset{t});
    WokenAway(a, t, max);
  }

  lemma WokenAway(y: System, t: Id, max: nat)
    requires Fit(y, max) && Asleep(y.s, t) && y.s.threads[t].place == Nowhere
    ensures var z := y.(s := Insert(y.s, t));
      On(Reached(y), Timeout(t), max) == Reached(z) && t in z.s.threads && z.s.threads[t].place.ReadyList?
  {
    assert Wake(y.s, t) == Insert(y.s, t);
  }

  // ---------- waiting ----------

  /** Events after which the current thread is no longer running, although it goes on until rt_schedule. */
  predicate StopsCurrent(s: State, e: Event) {
    match e
    case Wait(t, w, flag) => true
    case Exit(t, defunct) => true
    case Stop(t) => s.current == Cur(t)
    case Finish(t) => s.current == Cur(t)
    case Mark(t) => s.current == Cur(t)
    case _ => false
  }

  ghost predicate Runs(s: State) {
    s.current.Cur? && s.current.id in s.threads && s.threads[s.current.id].stat == Running
  }

  /** Nothing else stops it. */
  lemma StaysRunning(s: State, e: Event, max: nat)
    requires Good(s) && PriosFit(s, max) && Enabled(s, e, max) && Safe(s, e) && Runs(s) && !StopsCurrent(s, e)
    ensures Runs(Step(s, e, max))
  {
    match e
    case Clock =>
      SliceOverGood(s);
      ScheduleRunning(SliceOver(s), max);
    case Reschedule => ScheduleRunning(s, max);
    case Leave =>
      SameLists(s, Unlocked(s));
      ScheduleRunning(Unlocked(s), max);
    case _ =>
  }

  /** After rt_schedule the current thread runs, if it did before or any thread is ready. */
  lemma ScheduleRunning(s: State, max: nat)
    requires Good(s) && s.current.Cur? && (Runs(s) || (s.lock == 0 && AnyReady(s, max)))
    ensures Runs(Schedule(s, max))
  {
    if s.lock == 0 && AnyReady(s, max) {
      Pick(s, max);
      var to := s.At(ReadyList(Highest(s, 0, max)))[0];
      if Schedule(s, max) == SwitchTo(s, to) { SwitchFields(s, to); }
    }
  }

  /** Events after which the current thread runs: it is woken, or rt_schedule picks one, with the scheduler unlocked
      and a thread ready. */
  ghost predicate SetsRunning(s: State, e: Event, max: nat) {
    || e.Start?
    || (e.Reschedule? && s.lock == 0 && AnyReady(s, max))
    || (e.Leave? && s.lock <= 1 && s.current.Cur? && AnyReady(s, max))
    || ((e.Enlist? || e.Timeout?) && s.current == Cur(e.t))
  }

  lemma NowRunning(s: State, e: Event, max: nat)
    requires Good(s) && Enabled(s, e, max) && Safe(s, e) && SetsRunning(s, e, max)
    ensures Runs(Step(s, e, max))
  {
    match e
    case Start => ReadyThreads(s);
    case Reschedule => ScheduleRunning(s, max);
    case Leave =>
      SameLists(s, Unlocked(s));
      assert Unlocked(s).lock == 0;
      var p: nat :| p < max && s.At(ReadyList(p)) != [];
      assert Unlocked(s).At(ReadyList(p)) != [];
      ScheduleRunning(Unlocked(s), max);
    case _ =>
  }

  /** In the run `es`, whenever the current thread was stopped, the next one was set running later on. */
  ghost predicate Handed(es: seq<Event>, max: nat)
    requires After(es, max).Reached?
  {
    es != [] &&
      var n := |es| - 1;
      var s := After(es[..n], max).now.s;
      SetsRunning(s, es[n], max) || (Handed(es[..n], max) && !StopsCurrent(s, es[n]))
  }

  lemma {:induction false} HandedRuns(es: seq<Event>, max: nat)
    requires After(es, max).Reached? && Handed(es, max)
    ensures Runs(After(es, max).now.s)
  {
    var n := |es| - 1;
    if !SetsRunning(After(es[..n], max).now.s, es[n], max) { HandedRuns(es[..n], max); }
    LastRuns(After(es[..n], max).now, es[n], After(es, max), max);
  }

  lemma LastRuns(y: System, e: Event, r: Run, max: nat)
    requires Fit(y, max) && r == NextRun(y, e, max) && r.Reached?
    ensures SetsRunning(y.s, e, max) || (Runs(y.s) && !StopsCurrent(y.s, e)) ==> Runs(r.now.s)
  {
    if SetsRunning(y.s, e, max) {
      NowRunning(y.s, e, max);
    } else if Runs(y.s) && !StopsCurrent(y.s, e) {
      StaysRunning(y.s, e, max);
    }
  }

  /** Without rt_enter_critical an unlocked scheduler stays unlocked. */
  lemma {:induction false} StaysUnlocked(es: seq<Event>, mid: seq<Event>, max: nat)
    requires After(es, max).Reached? && After(es + mid, max).Reached? && After(es, max).now.s.lock == 0
    requires forall i :: 0 <= i < |mid| ==> !mid[i].Enter?
    ensures After(es + mid, max).now.s.lock == 0
  {
    if mid == [] {
      assert es + mid == es;
    } else {
      var n := |mid| - 1;
      AppendLast(es, mid);
      LastStep(es + mid[..n], mid[n], max);
      StaysUnlocked(es, mid[..n], max);
      SameLock(After(es + mid[..n], max).now.s, mid[n], max);
    }
  }

  lemma SameLock(s: State, e: Event, max: nat)
    requires Good(s) && Enabled(s, e, max) && s.lock == 0 && !e.Enter?
    ensures Step(s, e, max).lock == 0
  {
    match e
    case Clock => SliceOverGood(s); ScheduleLock(SliceOver(s), max);
    case Reschedule => ScheduleLock(s, max);
    case Leave =>
      SameLists(s, Unlocked(s));
      if s.current.Cur? { ScheduleLock(Unlocked(s), max); }
    case Start => ReadyThreads(s);
    case Wait(t, w, flag) => SuspendOnGoodIff(s, t, w, flag);
    case _ =>
  }

  lemma ScheduleLock(s: State, max: nat)
    requires Good(s) && s.current.Cur?
    ensures Schedule(s, max).lock == s.lock
  {
    if s.lock == 0 && AnyReady(s, max) {
      Pick(s, max);
      var to := s.At(ReadyList(Highest(s, 0, max)))[0];
      if Schedule(s, max) == SwitchTo(s, to) { SwitchFields(s, to); }
    }
  }

  /** A wait is safe where the thread that waits was set running since the last one was stopped. */
  lemma HandedWaitSafe(es: seq<Event>, t: Id, w: nat, flag: Flag, max: nat)
    requires After(es, max).Reached? && Handed(es, max)
    ensures !On(After(es, max), Wait(t, w, flag), max).Broken?
  {
    HandedRuns(es, max);
  }

  /** Waits with the scheduler unlocked are safe, if each is followed by rt_schedule (with a thread ready, as the
      idle thread always is) before the scheduler is locked or a thread waits again. */
  lemma UnlockedWaitSafe(es: seq<Event>, t: Id, w: nat, flag: Flag, mid: seq<Event>, u: Id, v: nat, flag': Flag,
                         max: nat)
    requires After(es, max).Reached? && After(es, max).now.s.lock == 0
    requires var f := es + [Wait(t, w, flag)] + mid;
      && After(f, max).Reached? && AnyReady(After(f, max).now.s, max) && After(f + [Reschedule], max).Reached?
    requires forall i :: 0 <= i < |mid| ==> !mid[i].Enter?
    ensures !On(After(es + [Wait(t, w, flag)] + mid + [Reschedule], max), Wait(u, v, flag'), max).Broken?
  {
    var f := es + ([Wait(t, w, flag)] + mid);
    assert f == es + [Wait(t, w, flag)] + mid;
    StaysUnlocked(es, [Wait(t, w, flag)] + mid, max);
    Scheduled(f, max);
    HandedWaitSafe(f + [Reschedule], u, v, flag', max);
  }

  lemma Scheduled(f: seq<Event>, max: nat)
    requires After(f, max).Reached? && After(f, max).now.s.lock == 0 && AnyReady(After(f, max).now.s, max)
    requires After(f + [Reschedule], max).Reached?
    ensures Handed(f + [Reschedule], max)
  {
    assert (f + [Reschedule])[..|f|] == f;
  }

  /** With the scheduler locked rt_schedule does nothing, and a thread that waits twice ends up in two lists, or
      twice in one. */
  lemma WaitTwice(y: System, t: Id, w: nat, flag: Flag, v: nat, flag': Flag, max: nat)
    requires Fit(y, max) && Runs(y.s) && y.s.current == Cur(t) && y.s.lock >= 0
    ensures var a := On(On(Reached(y), Enter, max), Wait(t, w, flag), max);
      a.Reached? && On(a, Reschedule, max) == a && On(a, Wait(t, v, flag'), max).Broken?
  {
    var b := y.(s := y.s.(lock := y.s.lock + 1));
    SameLists(y.s, b.s);
    assert On(Reached(y), Enter, max) == Reached(b);
    WaitedOnce(b, t, w, flag, max);
    WaitsOn(On(Reached(b), Wait(t, w, flag), max).now, t, w, v, flag', max);
  }

  lemma WaitsOn(y: System, t: Id, w: nat, v: nat, flag: Flag, max: nat)
    requires Fit(y, max) && y.s.current == Cur(t) && y.s.lock > 0 && t in y.s.threads
    requires y.s.threads[t].stat == Suspended && y.s.threads[t].place == WaitList(w)
    ensures On(Reached(y), Reschedule, max) == Reached(y) && On(Reached(y), Wait(t, v, flag), max).Broken?
  {
  }

  lemma WaitedOnce(y: System, t: Id, w: nat, flag: Flag, max: nat)
    requires Fit(y, max) && Runs(y.s) && y.s.current == Cur(t)
    ensures var a := On(Reached(y), Wait(t, w, flag), max);
      && a.Reached? && a.now.s.lock == y.s.lock && a.now.s.current == Cur(t) && t in a.now.s.threads
      && a.now.s.threads[t].stat == Suspended && a.now.s.threads[t].place == WaitList(w)
  {
    SuspendOnGoodIff(y.s, t, w, flag);
  }

  /** From the start of the system: thread 1 is created, started and runs, locks the scheduler and waits on
      objects 2 and 3. */
  lemma LockedWaits()
    ensures var a := On(On(Reached(EMPTY), Create(1, 0, 5), 32), StartUp(1), 32);
      var b := On(On(On(On(a, Test(1), 32), Unlink(1), 32), Enlist(1), 32), Start, 32);
      On(On(On(b, Enter, 32), Wait(1, 2, Fifo), 32), Wait(1, 3, Fifo), 32).Broken?
  {
    OneCreated();
    var a := On(On(Reached(EMPTY), Create(1, 0, 5), 32), StartUp(1), 32).now;
    HalfResume(a, 1, 32);
    var b := a.(s := Unlinked(a.s, 1), unlinked := a.unlinked + multiset{1});
    SecondHalf(b, 1, 32);
    var c := b.(s := Insert(b.s, 1), unlinked := b.unlinked - multiset{1});
    FirstStarted(c, 1, 32);
    WaitTwice(On(Reached(c), Start, 32).now, 1, 2, Fifo, 3, Fifo, 32);
  }

  /** The only thread becomes the first to run. */
  lemma FirstStarted(y: System, t: Id, max: nat)
    requires Fit(y, max) && y.s.threads.Keys == {t} && y.s.current == NoThread
    requires y.s.threads[t].stat == Ready && y.s.threads[t].place != Nowhere
    ensures var r := On(Reached(y), Start, max);
      r.Reached? && Runs(r.now.s) && r.now.s.current == Cur(t) && r.now.s.lock == y.s.lock
  {
    ReadyThreads(y.s);
    assert y.s.At(ReadyList(y.s.threads[t].prio)) != [];
    NowRunning(y.s, Start, max);
    var p := Highest(y.s, 0, max);
    assert y.s.At(ReadyList(p))[0] in y.s.At(ReadyList(p));
  }
}
