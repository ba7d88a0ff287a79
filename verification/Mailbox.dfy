/** The mailbox of rt-thread/src/ipc.c: a ring of mails and the threads that wait to put or to get one.
    Each method is one section that runs with interrupts disabled. A thread that has joined a list does not call again
    before it is woken or times out: with the scheduler locked it could, and would go round the waiting loops while
    on the list already (KernelRaces.WaitTwice says what that does). */
module Mailbox {
  import opened StableOrder
  import opened WaitQueue
  import opened RingMath
  import W = Waiters

  datatype SendResult = Sent | Full | SenderWaits
  datatype RecvResult<V> = Mail(value: V) | Empty | ReceiverWaits

  class Mailbox<V(0)> {
    const pool: array<V>      // msg_pool; its length is size
    const waiters: W.Waiters
    var inOffset: nat
    var outOffset: nat
    var entry: nat
    ghost var sent: seq<V>     // everything put since the last reset
    ghost var received: seq<V> // everything got since the last reset

    /** The mails in the box, oldest first. */
    ghost function Contents(): (s: seq<V>)
      reads this, pool
      requires pool.Length > 0 || entry == 0
    {
      Window(pool[..], outOffset, entry)
    }

    /** The offsets are those of a ring with `entry` mails, and the mails got and still there are, in this
        order, the mails put. */
    ghost predicate RingOk()
      reads this, pool
    {
      && entry <= pool.Length
      && (if pool.Length == 0 then inOffset == outOffset == 0
          else outOffset < pool.Length && inOffset == (outOffset + entry) % pool.Length)
      && sent == received + Contents()
    }

    ghost predicate Valid()
      reads this, pool, waiters
    {
      RingOk() && waiters.Valid() && waiters.NoneStranded(entry, pool.Length - entry)
    }

    /** rt_mb_init */
    constructor (size: nat, flag: Flag, threads: map<Id, int>)
      ensures Valid() && fresh(pool) && fresh(waiters) && pool.Length == size && sent == [] && received == []
      ensures waiters.prio == threads && waiters.flag == flag && waiters.receivers == [] && waiters.senders == []
    {
      pool := new V[size];
      waiters := new W.Waiters(flag, threads);
      inOffset, outOffset, entry, sent, received := 0, 0, 0, [], [];
    }

    /** One round of the loop of rt_mb_send_wait by thread `t`, waiting unless the time is 0. */
    method Send(t: Id, v: V, wait: bool) returns (r: SendResult)
      requires Valid() && waiters.Running(t) && t !in waiters.wokenReceivers
      modifies `inOffset, `entry, `sent, pool, waiters
      ensures waiters.prio == old(waiters.prio)
      ensures Valid() && received == old(received)
      ensures r == if old(entry) < pool.Length then Sent else if wait then SenderWaits else Full
      ensures sent == if r == Sent then old(sent) + [v] else old(sent)
      ensures waiters.senders ==
        if r == SenderWaits then Enqueue(waiters.flag, old(waiters.senders), t, waiters.prio) else old(waiters.senders)
      ensures waiters.receivers == if r == Sent then W.Rest(old(waiters.receivers)) else old(waiters.receivers)
      ensures waiters.wokenSenders == old(waiters.wokenSenders) - {t}
      ensures waiters.wokenReceivers == old(waiters.wokenReceivers) +
        if r == Sent then W.First(old(waiters.receivers)) else {}
    {
      waiters.SenderRuns(t);
      if entry == pool.Length {
        if !wait {
          return Full;
        }
        waiters.SuspendSender(t);
        assert waiters.NoneStranded(entry, 0);
        return SenderWaits;
      }
      Deliver(v);
      assert waiters.NoneStranded(entry, pool.Length - entry);
      r := Sent;
    }

    /** A mail enters the ring, and the first receiver is resumed. */
    method Deliver(v: V)
      requires RingOk() && waiters.Valid() && entry < pool.Length
      modifies `inOffset, `entry, `sent, pool, waiters`receivers, waiters`wokenReceivers
      ensures RingOk() && waiters.Valid() && entry == old(entry) + 1 && sent == old(sent) + [v]
      ensures waiters.receivers == W.Rest(old(waiters.receivers))
      ensures waiters.wokenReceivers == old(waiters.wokenReceivers) + W.First(old(waiters.receivers))
      ensures old(waiters.receivers) != [] ==> |waiters.wokenReceivers| == |old(waiters.wokenReceivers)| + 1
    {
      Put(v);
      waiters.ResumeReceiver();
    }

    /** Storing a mail at the input offset. */
    method Put(v: V)
      requires RingOk() && entry < pool.Length
      modifies `inOffset, `entry, `sent, pool
      ensures RingOk() && entry == old(entry) + 1 && sent == old(sent) + [v]
    {
      ghost var before := pool[..];
      pool[inOffset] := v;
      WindowPut(before, outOffset, entry, v);
      assert pool[..] == before[inOffset := v];
      NextOffset(outOffset, entry, pool.Length);
      inOffset := inOffset + 1;
      if inOffset >= pool.Length {
        inOffset := 0;
      }
      entry := entry + 1;
      sent := sent + [v];
    }

    /** One round of the loop of rt_mb_recv by thread `t`, waiting unless the time is 0. */
    method Recv(t: Id, wait: bool) returns (r: RecvResult<V>)
      requires Valid() && waiters.Running(t) && t !in waiters.wokenSenders
      modifies `outOffset, `entry, `received, waiters
      ensures waiters.prio == old(waiters.prio)
      ensures Valid()
      ensures if old(entry) > 0 then r.Mail? else r == if wait then ReceiverWaits else Empty
      ensures received == if r.Mail? then old(received) + [r.value] else old(received)
      ensures r.Mail? ==> r.value == old(Contents())[0]
      ensures waiters.receivers ==
        if r == ReceiverWaits then Enqueue(waiters.flag, old(waiters.receivers), t, waiters.prio)
        else old(waiters.receivers)
      ensures waiters.senders == if r.Mail? then W.Rest(old(waiters.senders)) else old(waiters.senders)
      ensures waiters.wokenReceivers == old(waiters.wokenReceivers) - {t}
      ensures waiters.wokenSenders == old(waiters.wokenSenders) + if r.Mail? then W.First(old(waiters.senders)) else {}
    {
      waiters.ReceiverRuns(t);
      if entry == 0 {
        if !wait {
          return Empty;
        }
        waiters.SuspendReceiver(t);
        return ReceiverWaits;
      }
      var v := Get();
      waiters.ResumeSender();
      r := Mail(v);
    }

    /** Fetching the mail at the output offset. */
    method Get() returns (v: V)
      requires RingOk() && entry > 0
      modifies `outOffset, `entry, `received
      ensures RingOk() && entry == old(entry) - 1 && received == old(received) + [v]
      ensures v == old(Contents())[0]
    {
      v := pool[outOffset];
      WindowGet(pool[..], outOffset, entry);
      outOffset := outOffset + 1;
      if outOffset >= pool.Length {
        outOffset := 0;
      }
      entry := entry - 1;
      received := received + [v];
    }

    /** rt_thread_timeout of a thread that sleeps on the box. */
    method Expire(t: Id)
      requires Valid() && (t in waiters.receivers || t in waiters.senders)
      modifies waiters
      ensures waiters.prio == old(waiters.prio)
      ensures Valid() && waiters.Running(t)
      ensures waiters.receivers == Without(old(waiters.receivers), t)
      ensures waiters.senders == Without(old(waiters.senders), t)
      ensures waiters.wokenReceivers == old(waiters.wokenReceivers) && waiters.wokenSenders == old(waiters.wokenSenders)
    {
      assert waiters.receivers == [] ==> Without(waiters.receivers, t) == [];
      assert waiters.senders == [] ==> Without(waiters.senders, t) == [];
      waiters.Expire(t);
    }

    /** A change of the priority of a thread. */
    method SetPriority(t: Id, p: int)
      requires Valid() && t in waiters.prio
      modifies waiters
      ensures Valid() && waiters.View() == old(waiters.View()) && waiters.prio == old(waiters.prio)[t := p]
    {
      waiters.SetPriority(t, p);
    }

    /** rt_mb_control, RT_IPC_CMD_RESET */
    method Reset()
      requires Valid()
      modifies this, waiters
      ensures waiters.prio == old(waiters.prio)
      ensures Valid() && entry == 0 && sent == received == []
      ensures waiters.receivers == [] && waiters.senders == []
      ensures waiters.wokenReceivers == old(waiters.wokenReceivers) && waiters.wokenSenders == old(waiters.wokenSenders)
    {
      waiters.ResumeAll();
      entry, inOffset, outOffset := 0, 0, 0;
      sent, received := [], [];
    }
  }
}
