/** The scheduler as an object with its ready bitmap, in both layouts. Its methods do what the steps of
    KernelSpec say. */
module Kernel {
  import opened StableOrder
  import W = WaitQueue
  import opened KernelSpec
  import opened Bitmap

  /** The priorities below `max` with a ready thread. */
  ghost function ReadySet(lists: map<Place, seq<Id>>, max: nat): set<nat> {
    set p: nat | p < max && ReadyList(p) in lists && lists[ReadyList(p)] != []
  }

  /** What the changes to one list do to the ready priorities. */
  lemma ReadySetChange(lists: map<Place, seq<Id>>, p: Place, q: seq<Id>, max: nat)
    ensures var r := ReadySet(lists[p := q], max);
      r == if !p.ReadyList? || p.prio >= max then ReadySet(lists, max)
           else if q != [] then ReadySet(lists, max) + {p.prio} else ReadySet(lists, max) - {p.prio}
  {
  }

  /** A node has left the list at `p`, if it was in one: the thread's own ready list, of priority `prio`, or
      another list. Only that priority can have ceased to be ready. */
  lemma ReadyLeft(lists: map<Place, seq<Id>>, lists': map<Place, seq<Id>>, p: Place, prio: nat, max: nat)
    requires if p == Nowhere then lists' == lists
      else p in lists && p in lists' && lists[p] != [] && lists' == lists[p := lists'[p]]
    requires p.ReadyList? ==> p.prio == prio
    ensures ReadySet(lists', max) ==
      if prio < max && (ReadyList(prio) in lists' ==> lists'[ReadyList(prio)] == []) then ReadySet(lists, max) - {prio}
        else ReadySet(lists, max)
  {
  }

  lemma HighestIs(s: State, from: nat, max: nat, p: nat)
    requires from <= p < max && s.At(ReadyList(p)) != []
    requires forall r: nat :: from <= r < p ==> s.At(ReadyList(r)) == []
    ensures Highest(s, from, max) == p
  {
  }

  lemma SomeReady(s: State, max: nat)
    ensures ReadySet(s.lists, max) != {} <==> AnyReady(s, max)
  {
    if AnyReady(s, max) {
      var p: nat :| p < max && s.At(ReadyList(p)) != [];
      assert p in ReadySet(s.lists, max);
    }
    if ReadySet(s.lists, max) != {} {
      var p :| p in ReadySet(s.lists, max);
      assert s.At(ReadyList(p)) != [];
    }
  }

  lemma MostUrgentIs(s: State, max: nat, p: nat)
    requires IsMostUrgent(ReadySet(s.lists, max), p) && AnyReady(s, max)
    ensures Highest(s, 0, max) == p
  {
    forall r: nat | r < p ensures s.At(ReadyList(r)) == [] {
      assert r !in ReadySet(s.lists, max);
    }
    HighestIs(s, 0, max, p);
  }

  class Scheduler {
    const max: nat             // RT_THREAD_PRIORITY_MAX
    var threads: map<Id, Thread>
    var marks: map<Id, Marks>
    var lists: map<Place, seq<Id>> // rt_thread_priority_table, rt_thread_defunct and the lists of IPC objects
    var group: bv32            // rt_thread_ready_priority_group
    var table: seq<bv32>       // rt_thread_ready_table
    var current: Current       // rt_current_thread
    var lock: int              // rt_scheduler_lock_nest
    ghost var leaving: set<Id> // threads between the two sections of their deletion

    ghost function Abs(): State
      reads this
    {
      State(threads, lists, current, lock, leaving)
    }

    predicate Wide()
      reads this
    {
      max > 32
    }

    /** The bitmap says which ready lists are not empty. */
    ghost predicate BitsOk()
      reads this
    {
      max <= 256 && Fits(ReadySet(lists, max), Wide(), group, table)
    }

    ghost predicate MarksOk()
      reads this
    {
      && max <= 256
      && (forall t :: t in threads ==> t in marks && threads[t].prio < max && threads[t].initPrio < max)
      && (forall t :: t in threads && marks[t] != MarksOf(threads[t].prio, Wide()) ==>
            marks[t] == NO_MARKS && (threads[t].stat == Init || threads[t].stat == Closed))
    }

    ghost predicate Valid()
      reads this
    {
      Good(Abs()) && BitsOk() && MarksOk()
    }

    function At(p: Place): seq<Id>
      reads this
    {
      if p in lists then lists[p] else []
    }

    /** rt_system_scheduler_init */
    constructor (priorities: nat)
      requires priorities <= 256
      ensures Valid() && max == priorities && Abs() == State(map[], map[], NoThread, 0, {})
    {
      max, threads, marks, lists := priorities, map[], map[], map[];
      group, table, current, lock, leaving := 0, seq(32, _ => 0), NoThread, 0, {};
      EmptyFits(priorities > 32, seq(32, _ => 0));
    }

    /** The bits of thread `t` once its ready list is not empty. */
    method SetBits(t: Id, ghost ready: set<nat>)
      requires MarksOk() && t in threads && marks[t] == MarksOf(threads[t].prio, Wide())
      requires Fits(ready, Wide(), group, table)
      modifies `group, `table
      ensures Fits(ready + {threads[t].prio}, Wide(), group, table)
    {
      group, table := AddMarks(marks[t], Wide(), group, table, threads[t].prio, ready);
    }

    /** The bits of thread `t` once it has left its ready list, which is empty now. */
    method ClearBits(t: Id, ghost ready: set<nat>)
      requires MarksOk() && t in threads && Fits(ready, Wide(), group, table)
      requires marks[t] == MarksOf(threads[t].prio, Wide()) || (marks[t] == NO_MARKS && threads[t].prio !in ready)
      modifies `group, `table
      ensures Fits(ready - {threads[t].prio}, Wide(), group, table)
    {
      group, table := DropMarks(marks[t], Wide(), group, table, threads[t].prio, ready);
    }

    /** New fields of a thread, other than priority and place. */
    method SetThread(t: Id, th: Thread)
      requires BitsOk() && MarksOk() && t in threads && (th.stat == Closed || marks[t] != NO_MARKS)
      requires th.prio == threads[t].prio && th.initPrio == threads[t].initPrio
      modifies `threads
      ensures BitsOk() && MarksOk() && Abs() == old(Abs()).SetThread(t, th)
    {
      ghost var s := Abs();
      threads := threads[t := th];
    }

    method SetStat(t: Id, stat: Stat)
      requires BitsOk() && MarksOk() && t in threads && (stat == Closed || marks[t] != NO_MARKS)
      modifies `threads
      ensures BitsOk() && MarksOk() && Abs() == WithStat(old(Abs()), t, stat)
    {
      SetThread(t, threads[t].(stat := stat));
    }

    method SetCurrent(to: Id)
      requires ListsFit(Abs()) && BitsOk() && MarksOk()
      modifies `current
      ensures ListsFit(Abs()) && BitsOk() && MarksOk() && Abs() == old(Abs()).(current := Cur(to))
    {
      ghost var s := Abs();
      current := Cur(to);
      EqualLists(s, Abs());
    }

    lemma EqualLists(s: State, b: State)
      requires ListsFit(s) && b.lists == s.lists && b.threads == s.threads
      ensures ListsFit(b)
    {
      forall r: Place | r != Nowhere ensures ListFits(b.threads, b.At(r), r) {
        assert b.At(r) == s.At(r);
      }
    }

    /** rt_schedule_insert_thread */
    method InsertThread(t: Id)
      requires BitsOk() && MarksOk() && t in threads && marks[t] != NO_MARKS && threads[t].place == Nowhere
      modifies `threads, `lists, `group, `table
      ensures Abs() == Insert(old(Abs()), t) && BitsOk() && MarksOk()
    {
      if current == Cur(t) {
        SetStat(t, Running);
      } else {
        ghost var ready := ReadySet(lists, max);
        AppendNode(t, ReadyList(threads[t].prio));
        SetBits(t, ready);
      }
    }

    /** The thread becomes ready at the end of list `p`. */
    method AppendNode(t: Id, p: Place)
      requires MarksOk() && t in threads && marks[t] != NO_MARKS
      requires p == ReadyList(threads[t].prio) && threads[t].place == Nowhere && current != Cur(t)
      modifies `threads, `lists
      ensures MarksOk() && Abs() == Insert(old(Abs()), t) && t in threads && threads[t].prio == old(threads[t].prio)
      ensures ReadySet(lists, max) == ReadySet(old(lists), max) +
        if threads[t].prio < max then {threads[t].prio} else {}
    {
      ReadySetChange(lists, p, At(p) + [t], max);
      threads := threads[t := threads[t].(stat := Ready)];
      lists := lists[p := At(p) + [t]];
      threads := threads[t := threads[t].(place := p)];
    }

    /** rt_list_remove of the thread's node. */
    method UnlinkNode(t: Id)
      requires t in threads
      requires threads[t].place != Nowhere ==> ListFits(threads, Abs().At(threads[t].place), threads[t].place)
      modifies `threads, `lists
      ensures Abs() == Unlinked(old(Abs()), t) && (old(MarksOk()) ==> MarksOk())
      ensures var p := old(threads[t]).place;
        if p == Nowhere then lists == old(lists) else lists == old(lists)[p := At(p)]
    {
      var p := threads[t].place;
      if p != Nowhere {
        var q := W.Unlink(At(p), t);
        lists := lists[p := q];
        threads := threads[t := threads[t].(place := Nowhere)];
      }
    }

    /** rt_schedule_remove_thread */
    method RemoveThread(t: Id)
      requires ListsFit(Abs()) && BitsOk() && MarksOk() && t in threads
      requires threads[t].place.ReadyList? ==> threads[t].place.prio == threads[t].prio && marks[t] != NO_MARKS
      modifies `threads, `lists, `group, `table
      ensures Abs() == Unlinked(old(Abs()), t) && BitsOk() && MarksOk()
    {
      ghost var ready, p := ReadySet(lists, max), threads[t].place;
      if p != Nowhere {
        assert ListFits(threads, Abs().At(p), p);
        assert t in Abs().At(p);
      }
      UnlinkNode(t);
      ReadyLeft(old(lists), lists, p, threads[t].prio, max);
      if At(ReadyList(threads[t].prio)) == [] {
        ClearBits(t, ready);
      }
    }

    /** _get_highest_priority_thread: both layouts find the most urgent priority with a ready thread. */
    method PickHighest() returns (to: Id, p: nat)
      requires BitsOk() && AnyReady(Abs(), max)
      ensures p == Highest(Abs(), 0, max) && to == Abs().At(ReadyList(p))[0]
    {
      SomeReady(Abs(), max);
      p := MostUrgent(Wide(), group, table, ReadySet(lists, max));
      MostUrgentIs(Abs(), max, p);
      to := At(ReadyList(p))[0];
    }

    /** A ready list is not empty exactly when the group word is not 0. */
    lemma GroupSaysReady()
      requires BitsOk()
      ensures group != 0 <==> AnyReady(Abs(), max)
    {
      GroupTells(ReadySet(lists, max), Wide(), group, table);
      SomeReady(Abs(), max);
    }

    /** rt_schedule */
    method Schedule()
      requires Valid() && current.Cur?
      modifies `threads, `lists, `group, `table, `current
      ensures Valid() && Abs() == KernelSpec.Schedule(old(Abs()), max)
    {
      ScheduleGood(Abs(), max);
      GroupSaysReady();
      if lock == 0 {
        if group != 0 {
          ScheduleAmong();
        }
      }
    }

    /** rt_schedule with the scheduler unlocked and a ready thread. */
    method ScheduleAmong()
      requires Valid() && current.Cur? && lock == 0 && AnyReady(Abs(), max)
      modifies `threads, `lists, `group, `table, `current
      ensures Valid() && Abs() == KernelSpec.Schedule(old(Abs()), max)
    {
      ghost var s := Abs();
      ReadyThreads(s);
      var to, highest := PickHighest();
      assert to in s.At(ReadyList(highest));
      assert ListFits(threads, s.At(ReadyList(highest)), ReadyList(highest));
      var next, insertFrom := Choose(to, highest);
      if next != current.id {
        Switch(next, insertFrom);
      } else {
        KeepCurrent();
      }
    }

    /** The current thread goes on running. */
    method KeepCurrent()
      requires Valid() && current.Cur? && threads[current.id].stat == Running
      modifies `threads, `lists, `group, `table
      ensures Valid() && Abs() == old(Abs())
    {
      RemoveThread(current.id);
      SetStat(current.id, Running);
      assert threads == old(threads);
    }

    /** Whether the current thread goes on or `to`, the most urgent ready thread, runs. */
    method Choose(to: Id, highest: nat) returns (next: Id, insertFrom: bool)
      requires current.Cur? && current.id in threads && to != current.id
      ensures next == if GivesWay(threads[current.id], highest) then to else current.id
      ensures insertFrom == (next == to && threads[current.id].stat == Running)
    {
      var self := current.id;
      next, insertFrom := to, false;
      if threads[self].stat == Running {
        if threads[self].prio < highest {
          next := self;
        } else if threads[self].prio == highest && !threads[self].yielding {
          next := self;
        } else {
          insertFrom := true;
        }
      }
    }

    /** The switch in rt_schedule. */
    method Switch(to: Id, insertFrom: bool)
      requires Valid() && current.Cur? && to in threads && threads[to].stat == Ready
      requires threads[to].place == ReadyList(threads[to].prio)
      requires insertFrom <==> threads[current.id].stat == Running
      modifies `threads, `lists, `group, `table, `current
      ensures Valid() && Abs() == SwitchTo(old(Abs()), to)
    {
      SwitchGood(Abs(), to);
      var from := current.id;
      LeaveCurrent(to, insertFrom);
      SwitchFrom(old(Abs()), Abs(), to);
      if insertFrom {
        InsertThread(from);
      }
      RunThread(to);
    }

    /** The new thread leaves its ready list and runs. */
    method RunThread(to: Id)
      requires ListsFit(Abs()) && BitsOk() && MarksOk() && to in threads && threads[to].stat == Ready
      requires threads[to].place == ReadyList(threads[to].prio)
      modifies `threads, `lists, `group, `table
      ensures BitsOk() && MarksOk() && Abs() == WithStat(Unlinked(old(Abs()), to), to, Running)
    {
      RemoveThread(to);
      SetStat(to, Running);
    }

    /** Up to the point where the old thread, if it still could run, is put back. */
    method LeaveCurrent(to: Id, insertFrom: bool)
      requires Valid() && current.Cur? && to in threads && threads[to].stat == Ready
      requires insertFrom <==> threads[current.id].stat == Running
      modifies `threads, `current
      ensures BitsOk() && MarksOk() && ListsFit(Abs()) && marks[to] != NO_MARKS
      ensures var s, from := old(Abs()), old(current).id;
        Abs() == (if insertFrom then s.SetThread(from, s.threads[from].(yielding := false)) else s).(current := Cur(to))
      ensures insertFrom ==> threads[old(current).id].place == Nowhere && marks[old(current).id] != NO_MARKS
    {
      if insertFrom {
        ClearYield(current.id);
      }
      SetCurrent(to);
    }

    method ClearYield(t: Id)
      requires ListsFit(Abs()) && BitsOk() && MarksOk() && t in threads && marks[t] != NO_MARKS
      modifies `threads
      ensures ListsFit(Abs()) && BitsOk() && MarksOk()
      ensures Abs() == old(Abs()).SetThread(t, old(threads[t]).(yielding := false))
    {
      YieldLists(Abs(), Abs().SetThread(t, threads[t].(yielding := false)), t);
      SetThread(t, threads[t].(yielding := false));
    }

    lemma YieldLists(s: State, b: State, from: Id)
      requires ListsFit(s) && from in s.threads && b.lists == s.lists
      requires b.threads == s.threads || b.threads == s.threads[from := s.threads[from].(yielding := false)]
      ensures ListsFit(b)
    {
      forall r: Place | r != Nowhere ensures ListFits(b.threads, b.At(r), r) {
        assert b.At(r) == s.At(r);
        assert ListFits(s.threads, s.At(r), r);
      }
    }

    /** rt_thread_suspend: true when the thread was ready or running. */
    method SuspendThread(t: Id) returns (ok: bool)
      requires Valid() && t in threads
      modifies `threads, `lists, `group, `table
      ensures ok == (old(threads[t]).stat == Ready || old(threads[t]).stat == Running)
      ensures Valid() && Abs() == if ok then KernelSpec.Suspend(old(Abs()), t) else old(Abs())
    {
      var stat := threads[t].stat;
      if stat != Ready && stat != Running {
        return false;
      }
      SuspendGood(Abs(), t);
      RemoveThread(t);
      SetStat(t, Suspended);
      ok := true;
    }

    /** rt_ipc_list_suspend of the current thread on the list `w` of an IPC object: the error of rt_thread_suspend
        is ignored, so a thread that is suspended and linked already is linked once more. */
    method SuspendOnList(w: nat, flag: W.Flag)
      requires Valid() && current.Cur?
      modifies `threads, `lists, `group, `table
      ensures BitsOk() && MarksOk() && (Valid() <==> MayWait(old(threads[current.id])))
      ensures var u := AfterSuspend(old(Abs()), current.id);
        (forall x :: x in u.At(WaitList(w)) ==> x in u.threads) && Abs() == SuspendOn(old(Abs()), current.id, w, flag)
    {
      var t := current.id;
      SuspendOnGoodIff(Abs(), t, w, flag);
      var _ := SuspendThread(t);
      assert Abs() == AfterSuspend(old(Abs()), t);
      LinkWait(t, w, flag);
    }

    /** The place of a suspended thread in the list `w`. */
    method LinkWait(t: Id, w: nat, flag: W.Flag)
      requires BitsOk() && MarksOk() && t in threads && (forall x :: x in Abs().At(WaitList(w)) ==> x in threads)
      modifies `threads, `lists
      ensures BitsOk() && MarksOk()
      ensures Abs() == Linked(old(Abs()), t, WaitList(w),
        W.Enqueue(flag, old(Abs()).At(WaitList(w)), t, Prios(old(Abs()))))
    {
      var prio := map x | x in threads :: threads[x].prio;
      var q := W.Suspend(flag, At(WaitList(w)), t, prio);
      PutNode(t, WaitList(w), q);
    }

    /** The thread's node linked into a list other than a ready list. */
    method PutNode(t: Id, p: Place, q: seq<Id>)
      requires BitsOk() && MarksOk() && t in threads && !p.ReadyList?
      modifies `threads, `lists
      ensures BitsOk() && MarksOk() && Abs() == Linked(old(Abs()), t, p, q)
    {
      ReadySetChange(lists, p, q, max);
      lists := lists[p := q];
      threads := threads[t := threads[t].(place := p)];
    }

    /** rt_thread_resume: true when the thread was suspended. */
    method Resume(t: Id) returns (ok: bool)
      requires Valid() && t in threads
      modifies `threads, `lists, `group, `table
      ensures ok == (old(threads[t]).stat == Suspended)
      ensures Valid() && Abs() == if ok then Wake(old(Abs()), t) else old(Abs())
    {
      if threads[t].stat != Suspended {
        return false;
      }
      WakeGood(Abs(), t);
      TakeOff(t);
      InsertThread(t);
      ok := true;
    }

    /** rt_list_remove of a suspended thread's node. */
    method TakeOff(t: Id)
      requires Valid() && t in threads && threads[t].stat == Suspended
      modifies `threads, `lists
      ensures Valid() && Abs() == Unlinked(old(Abs()), t) && threads[t].place == Nowhere
    {
      UnlinkGood(Abs(), t);
      UnlinkOther(t);
    }

    /** rt_list_remove of the node of a thread that is in no ready list. */
    method UnlinkOther(t: Id)
      requires ListsFit(Abs()) && BitsOk() && MarksOk() && t in threads && !threads[t].place.ReadyList?
      modifies `threads, `lists
      ensures BitsOk() && MarksOk() && Abs() == Unlinked(old(Abs()), t)
    {
      if threads[t].place != Nowhere {
        assert ListFits(threads, Abs().At(threads[t].place), threads[t].place);
        assert t in Abs().At(threads[t].place);
      }
      UnlinkNode(t);
      ReadyLeft(old(lists), lists, old(threads[t]).place, 0, max);
    }

    /** rt_thread_timeout */
    method Timeout(t: Id)
      requires Valid() && current.Cur? && t in threads && threads[t].stat == Suspended
      modifies `threads, `lists, `group, `table, `current
      ensures Valid() && Good(Wake(old(Abs()), t)) && Abs() == KernelSpec.Schedule(Wake(old(Abs()), t), max)
    {
      var _ := Resume(t);
      Schedule();
    }

    /** rt_thread_control, RT_THREAD_CTRL_CHANGE_PRIORITY */
    method ChangePriority(t: Id, prio: nat)
      requires Valid() && t in threads && prio < max
      modifies `threads, `lists, `group, `table, `marks
      ensures Valid() && Abs() == SetPriority(old(Abs()), t, prio)
      ensures OnlyThread(old(Abs()), Abs(), t) && threads[t].prio == prio && threads[t].stat == old(threads[t]).stat
      ensures threads[t].place == if threads[t].stat == Ready then ReadyList(prio) else old(threads[t]).place
    {
      ghost var s := Abs();
      SetPriorityGood(s, t, prio);
      PriorityExact(s, t, prio);
      if threads[t].stat == Ready {
        RemoveThread(t);
        SetPriorityField(t, prio);
        InsertThread(t);
      } else {
        SetPriorityField(t, prio);
      }
    }

    /** The priority and the marks that go with it. */
    method SetPriorityField(t: Id, prio: nat)
      requires BitsOk() && MarksOk() && t in threads && prio < max
      modifies `threads, `marks
      ensures BitsOk() && MarksOk() && Abs() == old(Abs()).SetThread(t, old(threads[t]).(prio := prio))
      ensures marks[t] != NO_MARKS
    {
      ghost var s := Abs();
      threads := threads[t := threads[t].(prio := prio)];
      marks := marks[t := MarksOf(prio, Wide())];
    }

    /** rt_thread_exit of the current thread before it schedules. */
    method ExitThread(defunct: bool)
      requires Valid() && current.Cur?
      modifies `threads, `lists, `group, `table
      ensures Valid() && Abs() == Exit(old(Abs()), current.id, defunct)
    {
      var t := current.id;
      ExitGood(Abs(), t, defunct);
      RemoveThread(t);
      SetThread(t, threads[t].(stat := Closed, yielding := false));
      if defunct {
        PutDefunct(t);
      }
    }

    /** The first section of rt_thread_delete and rt_thread_detach. */
    method DeleteFirst(t: Id)
      requires Valid() && t in threads
      modifies `threads, `lists, `group, `table, `leaving
      ensures Valid() && Abs() == Removed(old(Abs()), t)
    {
      RemovedGood(Abs(), t);
      if threads[t].stat != Init {
        RemoveThread(t);
      }
      leaving := leaving + {t};
    }

    /** The closing of a thread in rt_thread_detach. */
    method CloseThread(t: Id)
      requires Valid() && t in threads
      modifies `threads, `leaving
      ensures BitsOk() && MarksOk() && Abs() == ClosedNow(old(Abs()), t)
      ensures Valid() <==> old(threads[t].place) == Nowhere || old(threads[t].place) == Defunct
    {
      DeletedGoodIff(Abs(), t);
      leaving := leaving - {t};
      SetThread(t, threads[t].(stat := Closed, yielding := false));
    }

    /** The second section of rt_thread_delete. */
    method DeleteSecond(t: Id)
      requires Valid() && t in threads
      modifies `threads, `lists, `leaving
      ensures BitsOk() && MarksOk() && Abs() == Buried(ClosedNow(old(Abs()), t), t)
      ensures Valid() <==> old(threads[t].place) == Nowhere
    {
      DeletedGoodIff(Abs(), t);
      CloseThread(t);
      PutDefunct(t);
    }

    /** The second section of rt_thread_detach. */
    method DetachSecond(t: Id)
      requires Valid() && t in threads
      modifies `threads, `lists
      ensures BitsOk() && MarksOk() && Abs() == Buried(old(Abs()), t)
      ensures Valid() <==> old(threads[t].place) == Nowhere && old(threads[t].stat) == Closed
    {
      DeletedGoodIff(Abs(), t);
      PutDefunct(t);
    }

    /** rt_list_insert_after the head of rt_thread_defunct. */
    method PutDefunct(t: Id)
      requires BitsOk() && MarksOk() && t in threads
      modifies `threads, `lists
      ensures BitsOk() && MarksOk() && Abs() == Linked(old(Abs()), t, Defunct, [t] + old(Abs()).At(Defunct))
    {
      ghost var s := Abs();
      PutNode(t, Defunct, [t] + At(Defunct));
    }

    /** rt_tick_increase before the timers */
    method TickIncrease()
      requires Valid() && current.Cur?
      modifies `threads, `lists, `group, `table, `current
      ensures Valid() && Abs() == Tick(old(Abs()), max)
    {
      ghost var s := Abs();
      TickGood(s, max);
      var c := current.id;
      var left := if threads[c].remaining == 0 then TICKS - 1 else threads[c].remaining - 1;
      SetThread(c, threads[c].(remaining := left));
      if threads[c].remaining == 0 {
        EndSlice(s);
        Schedule();
      }
    }

    /** A new time slice, and the flag to give way; `s` was the state before the tick. */
    method EndSlice(ghost s: State)
      requires BitsOk() && MarksOk() && Good(s) && s.current.Cur? && s.current.id in threads
      requires Abs() == s.SetThread(s.current.id, s.threads[s.current.id].(remaining := 0))
      modifies `threads
      ensures Valid() && Abs() == SliceOver(s)
    {
      var c := current.id;
      SetThread(c, threads[c].(remaining := threads[c].initTick));
      SetThread(c, threads[c].(yielding := true));
      assert threads == SliceOver(s).threads;
      SliceOverGood(s);
    }

    /** rt_system_scheduler_start */
    method Start()
      requires Valid() && current == NoThread && AnyReady(Abs(), max)
      modifies `threads, `lists, `group, `table, `current
      ensures Valid() && current.Cur? && threads[current.id].stat == Running
      ensures var p := Highest(old(Abs()), 0, max); current.id == old(Abs()).At(ReadyList(p))[0]
    {
      ghost var s := Abs();
      ReadyThreads(s);
      var to, p := PickHighest();
      assert to in s.At(ReadyList(p));
      SetCurrent(to);
      RemoveThread(to);
      StartedGood(s, to);
      SetThread(to, threads[to].(stat := Running, yielding := false));
    }

    /** The state once the first thread runs. */
    lemma StartedGood(s: State, to: Id)
      requires Good(s) && s.current == NoThread && to in s.threads && s.threads[to].stat == Ready
      ensures var u := Unlinked(s.(current := Cur(to)), to);
        Good(u.SetThread(to, u.threads[to].(stat := Running, yielding := false)))
    {
      var a := s.(current := Cur(to));
      EqualLists(s, a);
      UnlinkedLists(a, to);
      var u := Unlinked(a, to);
      FieldsLists(u, to, u.threads[to].(stat := Running, yielding := false));
    }

    /** rt_enter_critical */
    method EnterCritical()
      requires Valid()
      modifies `lock
      ensures Valid() && Abs() == old(Abs()).(lock := old(lock) + 1)
    {
      ghost var s := Abs();
      lock := lock + 1;
      EqualLists(s, Abs());
    }

    /** rt_exit_critical */
    method ExitCritical()
      requires Valid()
      modifies `threads, `lists, `group, `table, `current, `lock
      ensures Valid()
      ensures var s := old(Abs()).(lock := if old(lock) - 1 <= 0 then 0 else old(lock) - 1);
        && Good(s)
        && Abs() == if s.lock == 0 && s.current.Cur? then KernelSpec.Schedule(s, max) else s
    {
      ghost var s := Abs();
      lock := lock - 1;
      if lock <= 0 {
        lock := 0;
      }
      EqualLists(s, Abs());
      if lock <= 0 {
        if current != NoThread {
          Schedule();
        }
      }
    }

    /** rt_thread_init */
    method Create(t: Id, prio: nat, tick: nat)
      requires Valid() && t !in threads && prio < max
      modifies `threads, `marks
      ensures Valid() && Abs() == old(Abs()).SetThread(t, Thread(Init, false, prio, prio, tick, tick, Nowhere))
    {
      ghost var s := Abs();
      FieldsLists(s, t, Thread(Init, false, prio, prio, tick, tick, Nowhere));
      threads := threads[t := Thread(Init, false, prio, prio, tick, tick, Nowhere)];
      marks := marks[t := NO_MARKS];
    }

    /** rt_thread_startup before the scheduling: the thread gets its marks and becomes ready. */
    method StartUp(t: Id)
      requires Valid() && t in threads && threads[t].stat == Init
      modifies `threads, `marks, `lists, `group, `table
      ensures Valid() && threads.Keys == old(threads).Keys && threads[t].stat == Ready
      ensures threads[t].prio == threads[t].initPrio
      ensures Abs().At(ReadyList(threads[t].prio)) == old(Abs()).At(ReadyList(threads[t].prio)) + [t]
    {
      SuspendNew(t);
      var _ := Resume(t);
    }

    /** rt_thread_startup up to rt_thread_resume. */
    method SuspendNew(t: Id)
      requires Valid() && t in threads && threads[t].stat == Init
      modifies `threads, `marks
      ensures Valid()
      ensures var th := old(threads[t]);
        Abs() == old(Abs()).SetThread(t, th.(prio := th.initPrio, stat := Suspended, yielding := false))
    {
      FieldsLists(Abs(), t, threads[t].(prio := threads[t].initPrio, stat := Suspended, yielding := false));
      SetPriorityField(t, threads[t].initPrio);
      SetThread(t, threads[t].(stat := Suspended, yielding := false));
      assert threads == old(threads)[t := threads[t]];
    }
  }
}
