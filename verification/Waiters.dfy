/** The threads that sleep on a mailbox or a message queue: those that want to receive and those that
    want to send. */
module Waiters {
  import opened StableOrder
  import opened WaitQueue

  /** Who sleeps, and who was resumed because of an item or of a free place and still has to run. */
  datatype Sleepers = Sleepers(receivers: seq<Id>, senders: seq<Id>, wokenReceivers: set<Id>, wokenSenders: set<Id>)

  /** Nobody sleeps twice, and nobody sleeps and is woken. */
  ghost predicate SleepersOk(prio: map<Id, int>, w: Sleepers) {
    && QueueOk(w.receivers, prio) && QueueOk(w.senders, prio)
    && (forall t :: t in w.wokenReceivers || t in w.wokenSenders ==> t !in w.receivers && t !in w.senders)
    && (forall t :: t in w.receivers ==> t !in w.senders)
  }

  /** Nobody is stranded: while a receiver sleeps, every item has a woken receiver still to run; while a
      sender sleeps, every free place has a woken sender still to run. */
  ghost predicate Served(w: Sleepers, items: int, places: int) {
    && (w.receivers != [] ==> items <= |w.wokenReceivers|)
    && (w.senders != [] ==> places <= |w.wokenSenders|)
  }

  class Waiters {
    const flag: Flag
    var prio: map<Id, int>    // priorities of the threads
    var receivers: seq<Id>    // suspend_thread
    var senders: seq<Id>      // suspend_sender_thread
    ghost var wokenReceivers: set<Id> // resumed because of an item and still to run
    ghost var wokenSenders: set<Id>   // resumed because of a free place and still to run

    ghost function View(): Sleepers
      reads this
    {
      Sleepers(receivers, senders, wokenReceivers, wokenSenders)
    }

    ghost predicate Valid()
      reads this
    {
      SleepersOk(prio, View())
    }

    ghost predicate NoneStranded(items: int, places: int)
      reads this
    {
      Served(View(), items, places)
    }

    /** A thread that is not asleep; one that was woken must finish what it was doing first. */
    ghost predicate Running(t: Id)
      reads this
    {
      t in prio && t !in receivers && t !in senders
    }

    constructor (f: Flag, threads: map<Id, int>)
      ensures Valid() && flag == f && prio == threads
      ensures receivers == [] && senders == [] && wokenReceivers == {} && wokenSenders == {}
    {
      flag, prio := f, threads;
      receivers, senders, wokenReceivers, wokenSenders := [], [], {}, {};
    }

    /** A change of the priority of a thread, asleep or not; its place in a list stays. */
    method SetPriority(t: Id, p: int)
      requires Valid() && t in prio
      modifies `prio
      ensures Valid() && prio == old(prio)[t := p]
    {
      prio := prio[t := p];
    }

    ghost method SenderRuns(t: Id)
      requires Valid()
      modifies `wokenSenders
      ensures Valid() && wokenSenders == old(wokenSenders) - {t}
      ensures |wokenSenders| == |old(wokenSenders)| - if t in old(wokenSenders) then 1 else 0
    {
      Discard(wokenSenders, t);
      wokenSenders := wokenSenders - {t};
    }

    ghost method ReceiverRuns(t: Id)
      requires Valid()
      modifies `wokenReceivers
      ensures Valid() && wokenReceivers == old(wokenReceivers) - {t}
      ensures |wokenReceivers| == |old(wokenReceivers)| - if t in old(wokenReceivers) then 1 else 0
    {
      Discard(wokenReceivers, t);
      wokenReceivers := wokenReceivers - {t};
    }

    /** rt_ipc_list_suspend for a sender. */
    method SuspendSender(t: Id)
      requires Valid() && Running(t) && t !in wokenReceivers && t !in wokenSenders
      modifies `senders
      ensures Valid() && senders == Enqueue(flag, old(senders), t, prio) && senders != []
    {
      Joined(flag, senders, t, prio);
      senders := Suspend(flag, senders, t, prio);
    }

    /** rt_ipc_list_suspend for a receiver. */
    method SuspendReceiver(t: Id)
      requires Valid() && Running(t) && t !in wokenReceivers && t !in wokenSenders
      modifies `receivers
      ensures Valid() && receivers == Enqueue(flag, old(receivers), t, prio) && receivers != []
    {
      Joined(flag, receivers, t, prio);
      receivers := Suspend(flag, receivers, t, prio);
    }

    /** The receivers as they are once one more item is there: the first of them is resumed. */
    method ResumeReceiver()
      requires Valid()
      modifies `receivers, `wokenReceivers
      ensures Valid() && receivers == Rest(old(receivers))
      ensures wokenReceivers == old(wokenReceivers) + First(old(receivers))
      ensures old(receivers) != [] ==> |wokenReceivers| == |old(wokenReceivers)| + 1
    {
      if receivers != [] {
        Left(receivers, prio);
        Added(wokenReceivers, receivers[0]);
        wokenReceivers := wokenReceivers + {receivers[0]};
        receivers := receivers[1..];
      }
    }

    /** The senders as they are once one more place is free: the first of them is resumed. */
    method ResumeSender()
      requires Valid()
      modifies `senders, `wokenSenders
      ensures Valid() && senders == Rest(old(senders))
      ensures wokenSenders == old(wokenSenders) + First(old(senders))
      ensures old(senders) != [] ==> |wokenSenders| == |old(wokenSenders)| + 1
    {
      if senders != [] {
        Left(senders, prio);
        Added(wokenSenders, senders[0]);
        wokenSenders := wokenSenders + {senders[0]};
        senders := senders[1..];
      }
    }

    /** rt_thread_timeout of a sleeping receiver or sender. */
    method Expire(t: Id)
      requires Valid() && (t in receivers || t in senders)
      modifies `receivers, `senders
      ensures Valid() && Running(t)
      ensures receivers == Without(old(receivers), t) && senders == Without(old(senders), t)
    {
      LeftAny(receivers, t, prio);
      LeftAny(senders, t, prio);
      WithoutIn(receivers, t);
      WithoutIn(senders, t);
      if t in receivers {
        receivers := Unlink(receivers, t);
      } else {
        senders := Unlink(senders, t);
      }
    }

    /** rt_ipc_list_resume_all for both lists: all sleepers are resumed with an error and do not try again. */
    method ResumeAll()
      requires Valid()
      modifies `receivers, `senders
      ensures Valid() && receivers == [] && senders == []
    {
      while receivers != []
        modifies `receivers
      {
        receivers := receivers[1..];
      }
      while senders != []
        modifies `senders
      {
        senders := senders[1..];
      }
    }
  }

  ghost function Rest(q: seq<Id>): seq<Id> {
    if q == [] then [] else q[1..]
  }

  ghost function First(q: seq<Id>): set<Id> {
    if q == [] then {} else {q[0]}
  }

  lemma Discard(s: set<Id>, t: Id)
    ensures |s - {t}| == |s| - if t in s then 1 else 0
  {
    if t !in s { assert s - {t} == s; }
  }

  lemma Added(s: set<Id>, t: Id)
    requires t !in s
    ensures |s + {t}| == |s| + 1
  {
  }
}
