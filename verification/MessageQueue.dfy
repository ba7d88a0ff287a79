/** The message queue of rt-thread/src/ipc.c: a pool of message slots, linked into a queue and a list of
    free slots. Messages are copied while interrupts are enabled, so a slot can also be in flight with a
    thread. Each method is one section that runs with interrupts disabled, or one copy between two. A thread that
    has joined a list does not call again before it is woken or times out: with the scheduler locked it could, and
    would go round the waiting loops while on the list already (KernelRaces.WaitTwice says what that does). */
module MessageQueue {
  import opened StableOrder
  import opened WaitQueue
  import W = Waiters
  import S = MessageSpec

  type Byte = S.Byte

  datatype Link = Null | Msg(slot: nat)
  datatype Grab = Slot(m: nat) | Full | SenderWaits
  datatype Pick = Message(m: nat) | Empty | ReceiverWaits
  datatype Posted = Done | TooLong | NoRoom | Asleep
  datatype Got = Bytes(bytes: seq<Byte>) | Nothing | Sleeps

  /** The slots `s` are linked in this order from `from` on. */
  ghost predicate Chain(next: seq<Link>, from: Link, s: seq<nat>)
    decreases |s|
  {
    if s == [] then from == Null
    else from == Msg(s[0]) && s[0] < |next| && Chain(next, next[s[0]], s[1..])
  }

  lemma {:induction false} ChainFrame(next: seq<Link>, from: Link, s: seq<nat>, next': seq<Link>)
    requires Chain(next, from, s) && |next'| == |next|
    requires forall m :: 0 <= m < |next| && m in s ==> next'[m] == next[m]
    ensures Chain(next', from, s)
    decreases |s|
  {
    if s != [] {
      assert s == [s[0]] + s[1..];
      ChainFrame(next, next[s[0]], s[1..], next');
    }
  }

  /** Linking slot `m` behind the last one. */
  lemma {:induction false} ChainSnoc(next: seq<Link>, from: Link, s: seq<nat>, m: nat)
    requires Chain(next, from, s) && Distinct(s) && m < |next| && m !in s && next[m] == Null
    ensures s != [] ==> s[|s| - 1] < |next|
    ensures s == [] ==> Chain(next, Msg(m), [m])
    ensures s != [] ==> Chain(next[s[|s| - 1] := Msg(m)], from, s + [m])
    decreases |s|
  {
    if s != [] {
      ChainSnoc(next, next[s[0]], s[1..], m);
      var next' := next[s[|s| - 1] := Msg(m)];
      assert (s + [m])[1..] == s[1..] + [m];
      if |s| > 1 {
        assert s[0] != s[|s| - 1];
      } else {
        assert s[1..] + [m] == [m];
        assert Chain(next', Msg(m), [m]);
      }
    } else {
      assert [m][1..] == [];
    }
  }

  lemma Moved(q: seq<nat>, s: seq<nat>)
    ensures q != [] ==> S.Reversed(q[1..]) + ([q[0]] + s) == S.Reversed(q) + s
  {
  }

  /** Slots filled for the tail of the queue have no successor yet. */
  ghost predicate EndsClear(next: seq<Link>, flight: map<nat, S.Job>) {
    forall m :: m in flight && flight[m].Copied? && !flight[m].urgent ==> m < |next| && next[m] == Null
  }

  /** Slot `m` put before the head of the list `a`; the list `b` is the other one. */
  lemma PutFirst(next: seq<Link>, from: Link, a: seq<nat>, other: Link, b: seq<nat>, m: nat)
    requires Chain(next, from, a) && Chain(next, other, b) && m < |next| && m !in a && m !in b
    ensures Chain(next[m := from], Msg(m), [m] + a) && Chain(next[m := from], other, b)
  {
    ChainFrame(next, from, a, next[m := from]);
    ChainFrame(next, other, b, next[m := from]);
    assert ([m] + a)[1..] == a;
  }

  /** Slot `m` put behind the last one of the list `a`. */
  lemma PutLast(next: seq<Link>, from: Link, a: seq<nat>, other: Link, b: seq<nat>, m: nat)
    requires Chain(next, from, a) && Chain(next, other, b) && Distinct(a) && m < |next| && m !in a && next[m] == Null
    requires (forall x :: x in a ==> x !in b) && forall i :: 0 <= i < |a| ==> a[i] < |next|
    ensures a == [] ==> Chain(next, Msg(m), a + [m])
    ensures a != [] ==> var next' := next[a[|a| - 1] := Msg(m)]; Chain(next', from, a + [m]) && Chain(next', other, b)
  {
    ChainSnoc(next, from, a, m);
    if a != [] {
      assert a[|a| - 1] in a;
      ChainFrame(next, other, b, next[a[|a| - 1] := Msg(m)]);
    } else {
      assert a + [m] == [m];
    }
  }

  /** The links spell out the queue and the free list. */
  ghost predicate LinksFit(next: seq<Link>, head: Link, tail: Link, free: Link, entry: int, queue: seq<nat>,
                           spare: seq<nat>, flight: map<nat, S.Job>) {
    && Chain(next, head, queue) && Chain(next, free, spare)
    && tail == (if queue == [] then Null else Msg(queue[|queue| - 1]))
    && entry == |queue|
    && S.OnePlace(queue, spare, flight.Keys, |next|) && EndsClear(next, flight)
  }

  /** The links once slot `m` in flight has become the last one of the queue. */
  lemma Appended(next: seq<Link>, head: Link, tail: Link, free: Link, entry: int, queue: seq<nat>, spare: seq<nat>,
                 flight: map<nat, S.Job>, m: nat)
      returns (next': seq<Link>, head': Link)
    requires LinksFit(next, head, tail, free, entry, queue, spare, flight)
    requires m in flight && flight[m].Copied? && !flight[m].urgent
    ensures if queue == [] then next' == next && head == Null && head' == Msg(m)
      else queue[|queue| - 1] < |next| && next' == next[queue[|queue| - 1] := Msg(m)] && head != Null && head' == head
    ensures LinksFit(next', head', Msg(m), free, entry + 1, queue + [m], spare, flight - {m})
  {
    PutLast(next, head, queue, free, spare, m);
    next', head' := if queue == [] then next else next[queue[|queue| - 1] := Msg(m)],
      if queue == [] then Msg(m) else head;
    S.Put(queue, spare, flight.Keys, |next|, m);
    assert (flight - {m}).Keys == flight.Keys - {m};
    assert queue != [] ==> queue[|queue| - 1] in queue;
  }

  /** The links once slot `m` in flight has become the first one of the queue. */
  lemma Prepended(next: seq<Link>, head: Link, tail: Link, free: Link, entry: int, queue: seq<nat>, spare: seq<nat>,
                  flight: map<nat, S.Job>, m: nat)
    requires LinksFit(next, head, tail, free, entry, queue, spare, flight) && m in flight
    ensures m < |next|
    ensures LinksFit(next[m := head], Msg(m), if tail == Null then Msg(m) else tail, free, entry + 1,
                     [m] + queue, spare, flight - {m})
  {
    PutFirst(next, head, queue, free, spare, m);
    S.Put(queue, spare, flight.Keys, |next|, m);
    assert (flight - {m}).Keys == flight.Keys - {m};
  }

  /** The links once slot `m` in flight has become the first one of the free list. */
  lemma Freed(next: seq<Link>, head: Link, tail: Link, free: Link, entry: int, queue: seq<nat>, spare: seq<nat>,
              flight: map<nat, S.Job>, m: nat)
    requires LinksFit(next, head, tail, free, entry, queue, spare, flight) && m in flight
    ensures m < |next|
    ensures LinksFit(next[m := free], head, tail, Msg(m), entry, queue, [m] + spare, flight - {m})
  {
    PutFirst(next, free, spare, head, queue, m);
    S.Put(queue, spare, flight.Keys, |next|, m);
    assert (flight - {m}).Keys == flight.Keys - {m};
  }

  /** Changing the link of a slot that is in neither list. */
  lemma BothFrame(next: seq<Link>, from: Link, a: seq<nat>, other: Link, b: seq<nat>, m: nat, l: Link)
    requires Chain(next, from, a) && Chain(next, other, b) && m < |next| && m !in a && m !in b
    ensures Chain(next[m := l], from, a) && Chain(next[m := l], other, b)
  {
    ChainFrame(next, from, a, next[m := l]);
    ChainFrame(next, other, b, next[m := l]);
  }

  class MessageQueue {
    const msgSize: nat        // msg_size
    const next: array<Link>   // the link of each slot in msg_pool
    const data: array<seq<Byte>> // the bytes of each slot
    const waiters: W.Waiters
    var head: Link            // msg_queue_head
    var tail: Link            // msg_queue_tail
    var free: Link            // msg_queue_free
    var entry: nat
    ghost var queue: seq<nat>
    ghost var spare: seq<nat>
    ghost var flight: map<nat, S.Job>

    ghost predicate LinksOk()
      reads this, next
    {
      LinksFit(next[..], head, tail, free, entry, queue, spare, flight)
    }

    ghost predicate DataOk()
      reads this, data
    {
      (forall m :: 0 <= m < data.Length ==> |data[m]| == msgSize) && S.JobsOk(flight, data[..])
    }

    /** The queue as MessageSpec sees it. */
    ghost function View(): S.State
      reads this, data, waiters
    {
      S.State(msgSize, queue, spare, flight, data[..], waiters.flag, waiters.prio, waiters.View())
    }

    ghost predicate Valid()
      reads this, next, data, waiters
    {
      && LinksOk() && DataOk() && data.Length == next.Length
      && waiters.Valid() && waiters.NoneStranded(|queue|, |spare|)
    }

    /** The queued messages, in the order in which they will be received. */
    ghost function Messages(): seq<seq<Byte>>
      reads this, data
      requires forall i :: 0 <= i < |queue| ==> queue[i] < data.Length
    {
      S.Bodies(data[..], queue)
    }

    /** rt_mq_init; the pool has room for `n` messages. */
    constructor (size: nat, n: nat, flag: Flag, threads: map<Id, int>)
      ensures Valid() && fresh(next) && fresh(data) && fresh(waiters) && next.Length == n && queue == []
      ensures flight == map[]
      ensures waiters.prio == threads && waiters.flag == flag && waiters.receivers == [] && waiters.senders == []
      ensures Messages() == []
    {
      msgSize, next, data := size, new Link[n](_ => Null), new seq<Byte>[n](_ => seq(size, _ => 0));
      waiters := new W.Waiters(flag, threads);
      head, tail, free, entry, queue, spare, flight := Null, Null, Null, 0, [], [], map[];
      new;
      for i := 0 to n
        modifies next, `free, `spare
        invariant Chain(next[..], free, spare) && Distinct(spare) && forall m :: m in spare <==> 0 <= m < i
      {
        ghost var before := next[..];
        next[i] := free;
        ChainFrame(before, free, spare, next[..]);
        S.Front(i, spare);
        free := Msg(i);
        spare := [i] + spare;
      }
    }

    /** The first section of rt_mq_send_wait and rt_mq_urgent, by thread `t`: taking a free slot. */
    method GrabSlot(t: Id, wait: bool, ghost urgent: bool) returns (r: Grab)
      requires Valid() && waiters.Running(t) && t !in waiters.wokenReceivers
      modifies `free, `spare, `flight, waiters
      ensures waiters.prio == old(waiters.prio)
      ensures Valid()
      ensures if old(spare) != [] then r == Slot(old(spare)[0]) else r == if wait then SenderWaits else Full
      ensures r.Slot? ==>
        spare == old(spare)[1..] && r.m !in old(flight) && flight == old(flight)[r.m := S.Sending(t, urgent)]
      ensures !r.Slot? ==> spare == old(spare) && flight == old(flight) && free == old(free)
      ensures waiters.receivers == old(waiters.receivers) && waiters.wokenReceivers == old(waiters.wokenReceivers)
      ensures waiters.senders ==
        if r == SenderWaits then Enqueue(waiters.flag, old(waiters.senders), t, waiters.prio) else old(waiters.senders)
      ensures waiters.wokenSenders == old(waiters.wokenSenders) - {t}
    {
      waiters.SenderRuns(t);
      if free == Null {
        if !wait {
          return Full;
        }
        waiters.SuspendSender(t);
        return SenderWaits;
      }
      var m := TakeSpare(t, urgent);
      r := Slot(m);
    }

    /** The first free slot goes in flight with thread `t`. */
    method TakeSpare(t: Id, ghost urgent: bool) returns (m: nat)
      requires LinksOk() && DataOk() && data.Length == next.Length && free != Null
      modifies `free, `spare, `flight
      ensures LinksOk() && DataOk() && old(spare) != [] && m == old(spare)[0] && spare == old(spare)[1..]
      ensures m !in old(flight) && flight == old(flight)[m := S.Sending(t, urgent)]
    {
      S.Unspared(queue, spare, flight.Keys, next.Length);
      m := free.slot;
      free := next[m];
      spare, flight := spare[1..], flight[m := S.Sending(t, urgent)];
      assert flight.Keys == old(flight).Keys + {m};
    }

    /** Copying the message into a slot in flight; rt_mq_send_wait also clears the slot's link here. */
    method Fill(m: nat, buffer: seq<Byte>, clear: bool)
      requires Valid() && m in flight && flight[m].Sending? && |buffer| <= msgSize && clear == !flight[m].urgent
      modifies next, data, `flight
      ensures Valid() && Messages() == old(Messages())
      ensures m < data.Length && data[..] == old(data[..])[m := S.Filled(old(data[m]), buffer)]
      ensures flight == old(flight)[m := S.Copied(old(flight[m]).t, !clear, data[m])]
    {
      if clear {
        ClearLink(m);
      }
      S.BodiesFrame(data[..], queue, data[..][m := S.Filled(data[m], buffer)]);
      WriteBody(m, buffer);
      flight := flight[m := S.Copied(flight[m].t, !clear, data[m])];
      assert flight.Keys == old(flight).Keys;
    }

    /** rt_memcpy into a slot. */
    method WriteBody(m: nat, buffer: seq<Byte>)
      requires m < data.Length && |buffer| <= |data[m]|
      modifies data
      ensures data[..] == old(data[..])[m := S.Filled(old(data[m]), buffer)]
    {
      data[m] := buffer + data[m][|buffer|..];
    }

    method ClearLink(m: nat)
      requires LinksOk() && m in flight
      modifies next
      ensures LinksOk() && next[m] == Null
    {
      BothFrame(next[..], head, queue, free, spare, m, Null);
      next[m] := Null;
      assert next[..] == old(next[..])[m := Null];
    }

    /** The second section of rt_mq_send_wait: linking the slot behind the tail. */
    method LinkTail(m: nat)
      requires Valid() && m in flight && flight[m].Copied? && !flight[m].urgent
      modifies next, `head, `tail, `entry, `queue, `flight, waiters
      ensures waiters.prio == old(waiters.prio)
      ensures Valid() && queue == old(queue) + [m] && flight == old(flight) - {m}
      ensures Messages() == old(Messages()) + [old(flight[m]).body]
      ensures Resumed(old(waiters.receivers), old(waiters.wokenReceivers))
      ensures waiters.senders == old(waiters.senders) && waiters.wokenSenders == old(waiters.wokenSenders)
    {
      S.LinkBodies(data[..], queue, m);
      Append(m);
      waiters.ResumeReceiver();
    }

    /** The links, head and tail with slot `m` behind all others. */
    method Append(m: nat)
      requires LinksOk() && m in flight && flight[m].Copied? && !flight[m].urgent
      modifies next, `head, `tail, `entry, `queue, `flight
      ensures LinksOk() && queue == old(queue) + [m] && flight == old(flight) - {m}
    {
      ghost var links, first := Appended(next[..], head, tail, free, entry, queue, spare, flight, m);
      LinkFromTail(m, links);
      MoveEnds(m, first);
      entry := entry + 1;
      queue, flight := queue + [m], flight - {m};
    }

    method MoveEnds(m: nat, ghost first: Link)
      requires first == if head == Null then Msg(m) else head
      modifies `head, `tail
      ensures tail == Msg(m) && head == first
    {
      tail := Msg(m);
      if head == Null {
        head := Msg(m);
      }
    }

    /** The link of the last slot leads to slot `m`. */
    method LinkFromTail(m: nat, ghost links: seq<Link>)
      requires if queue == [] then tail == Null else queue[|queue| - 1] < next.Length && tail == Msg(queue[|queue| - 1])
      requires links == if queue == [] then next[..] else next[..][queue[|queue| - 1] := Msg(m)]
      modifies next
      ensures next[..] == links
    {
      if tail != Null {
        next[tail.slot] := Msg(m);
      }
    }

    /** The second section of rt_mq_urgent: linking the slot before the head. */
    method LinkHead(m: nat)
      requires Valid() && m in flight && flight[m].Copied? && flight[m].urgent
      modifies next, `head, `tail, `entry, `queue, `flight, waiters
      ensures waiters.prio == old(waiters.prio)
      ensures Valid() && queue == [m] + old(queue) && flight == old(flight) - {m}
      ensures Messages() == [old(flight[m]).body] + old(Messages())
      ensures Resumed(old(waiters.receivers), old(waiters.wokenReceivers))
      ensures waiters.senders == old(waiters.senders) && waiters.wokenSenders == old(waiters.wokenSenders)
    {
      S.LinkBodies(data[..], queue, m);
      Prepend(m);
      waiters.ResumeReceiver();
    }

    /** The links, head and tail with slot `m` before all others. */
    method Prepend(m: nat)
      requires LinksOk() && m in flight
      modifies next, `head, `tail, `entry, `queue, `flight
      ensures LinksOk() && queue == [m] + old(queue) && flight == old(flight) - {m}
    {
      Prepended(next[..], head, tail, free, entry, queue, spare, flight, m);
      next[m] := head;
      assert next[..] == old(next[..])[m := head];
      head := Msg(m);
      if tail == Null {
        tail := Msg(m);
      }
      entry := entry + 1;
      queue, flight := [m] + queue, flight - {m};
    }

    /** The first receiver, if any, has been resumed. */
    ghost predicate Resumed(receivers: seq<Id>, woken: set<Id>)
      reads waiters
    {
      waiters.receivers == W.Rest(receivers) && waiters.wokenReceivers == woken + W.First(receivers)
    }

    /** The first section of rt_mq_recv, by thread `t`: taking the head of the queue. */
    method Take(t: Id, wait: bool) returns (r: Pick)
      requires Valid() && waiters.Running(t) && t !in waiters.wokenSenders
      modifies `head, `tail, `entry, `queue, `flight, waiters
      ensures waiters.prio == old(waiters.prio)
      ensures Valid()
      ensures if old(queue) != [] then r == Message(old(queue)[0]) else r == if wait then ReceiverWaits else Empty
      ensures r.Message? ==>
        queue == old(queue)[1..] && r.m !in old(flight) && r.m < data.Length &&
        flight == old(flight)[r.m := S.Receiving(t, data[r.m])]
      ensures r.Message? ==> old(Messages()) == [data[r.m]] + Messages()
      ensures !r.Message? ==> queue == old(queue) && flight == old(flight)
      ensures waiters.senders == old(waiters.senders) && waiters.wokenSenders == old(waiters.wokenSenders)
      ensures waiters.receivers ==
        if r == ReceiverWaits then Enqueue(waiters.flag, old(waiters.receivers), t, waiters.prio)
        else old(waiters.receivers)
      ensures waiters.wokenReceivers == old(waiters.wokenReceivers) - {t}
    {
      waiters.ReceiverRuns(t);
      if entry == 0 {
        if !wait {
          return Empty;
        }
        waiters.SuspendReceiver(t);
        return ReceiverWaits;
      }
      var m := TakeHead(t);
      r := Message(m);
    }

    /** The head of the queue goes in flight with thread `t`. */
    method TakeHead(t: Id) returns (m: nat)
      requires LinksOk() && DataOk() && data.Length == next.Length && entry > 0
      modifies `head, `tail, `entry, `queue, `flight
      ensures LinksOk() && DataOk() && m == old(queue)[0] && queue == old(queue)[1..] && m < data.Length
      ensures m !in old(flight) && flight == old(flight)[m := S.Receiving(t, data[m])]
    {
      m := head.slot;
      Unqueue();
      flight := flight[m := S.Receiving(t, data[m])];
      assert flight.Keys == old(flight).Keys + {m};
    }

    /** Moving the head of the queue on; the slot taken is then nowhere. */
    method Unqueue()
      requires LinksOk() && entry > 0
      modifies `head, `tail, `entry, `queue
      ensures queue == old(queue)[1..] && entry == |queue| && Chain(next[..], head, queue)
      ensures tail == (if queue == [] then Null else Msg(queue[|queue| - 1]))
      ensures S.OnePlace(queue, spare, flight.Keys + {old(queue)[0]}, next.Length) && old(queue)[0] !in flight
    {
      S.Unqueued(queue, spare, flight.Keys, next.Length);
      var m := head.slot;
      head := next[m];
      if tail == Msg(m) {
        assert |queue| == 1;
        tail := Null;
      }
      entry := entry - 1;
      queue := queue[1..];
    }

    /** Copying the message out of a slot in flight. */
    method CopyOut(m: nat, size: nat) returns (buffer: seq<Byte>)
      requires Valid() && m in flight && flight[m].Receiving?
      ensures |buffer| == (if size > msgSize then msgSize else size) && buffer <= flight[m].body
    {
      buffer := data[m][..if size > msgSize then msgSize else size];
    }

    /** The second section of rt_mq_recv: the slot goes to the free list and a sender is resumed. */
    method GiveBack(m: nat)
      requires Valid() && m in flight && flight[m].Receiving?
      modifies next, `free, `spare, `flight, waiters
      ensures waiters.prio == old(waiters.prio)
      ensures Valid() && spare == [m] + old(spare) && flight == old(flight) - {m} && Messages() == old(Messages())
      ensures waiters.senders == W.Rest(old(waiters.senders))
      ensures waiters.wokenSenders == old(waiters.wokenSenders) + W.First(old(waiters.senders))
      ensures waiters.receivers == old(waiters.receivers) && waiters.wokenReceivers == old(waiters.wokenReceivers)
    {
      FreeSlot(m);
      waiters.ResumeSender();
    }

    /** Pushing a slot that is nowhere else on the free list. */
    method FreeSlot(m: nat)
      requires LinksOk() && m in flight
      modifies next, `free, `spare, `flight
      ensures LinksOk() && spare == [m] + old(spare) && flight == old(flight) - {m}
    {
      Freed(next[..], head, tail, free, entry, queue, spare, flight, m);
      next[m] := free;
      assert next[..] == old(next[..])[m := free];
      free := Msg(m);
      spare, flight := [m] + spare, flight - {m};
    }

    /** rt_mq_send_wait up to a suspension, when no other thread comes in between. */
    method Send(t: Id, buffer: seq<Byte>, wait: bool) returns (r: Posted)
      requires Valid() && waiters.Running(t) && t !in waiters.wokenReceivers && |buffer| > 0
      modifies this, next, data, waiters
      ensures waiters.prio == old(waiters.prio)
      ensures Valid() && flight == old(flight)
      ensures r ==
        if |buffer| > msgSize then TooLong else if old(spare) != [] then Done else if wait then Asleep else NoRoom
      ensures if r == Done then
          |Messages()| == |old(Messages())| + 1 && Messages()[..|old(Messages())|] == old(Messages()) &&
            buffer <= Messages()[|old(Messages())|]
        else Messages() == old(Messages())
    {
      if |buffer| > msgSize {
        return TooLong;
      }
      var g := GrabSlot(t, wait, false);
      if !g.Slot? {
        return if g == Full then NoRoom else Asleep;
      }
      Post(g.m, buffer);
      r := Done;
    }

    /** The part of rt_mq_send_wait after a slot has been taken. */
    method Post(m: nat, buffer: seq<Byte>)
      requires Valid() && m in flight && flight[m].Sending? && !flight[m].urgent && |buffer| <= msgSize
      modifies this, next, data, waiters
      ensures waiters.prio == old(waiters.prio)
      ensures Valid() && flight == old(flight) - {m}
      ensures exists body :: Messages() == old(Messages()) + [body] && buffer <= body
    {
      Fill(m, buffer, true);
      LinkTail(m);
      assert flight == old(flight) - {m};
    }

    /** The part of rt_mq_urgent after a slot has been taken. */
    method PostUrgent(m: nat, buffer: seq<Byte>)
      requires Valid() && m in flight && flight[m].Sending? && flight[m].urgent && |buffer| <= msgSize
      modifies this, next, data, waiters
      ensures waiters.prio == old(waiters.prio)
      ensures Valid() && flight == old(flight) - {m}
      ensures exists body :: Messages() == [body] + old(Messages()) && buffer <= body
    {
      Fill(m, buffer, false);
      LinkHead(m);
      assert flight == old(flight) - {m};
    }

    /** rt_mq_urgent when no other thread comes in between. */
    method Urgent(t: Id, buffer: seq<Byte>) returns (r: Posted)
      requires Valid() && waiters.Running(t) && t !in waiters.wokenReceivers && |buffer| > 0
      modifies this, next, data, waiters
      ensures waiters.prio == old(waiters.prio)
      ensures Valid() && flight == old(flight)
      ensures r == if |buffer| > msgSize then TooLong else if old(spare) != [] then Done else NoRoom
      ensures if r == Done then
          Messages() != [] && Messages()[1..] == old(Messages()) && buffer <= Messages()[0]
        else Messages() == old(Messages())
    {
      if |buffer| > msgSize {
        return TooLong;
      }
      var g := GrabSlot(t, false, true);
      if !g.Slot? {
        return NoRoom;
      }
      PostUrgent(g.m, buffer);
      r := Done;
    }

    /** rt_mq_recv up to a suspension, when no other thread comes in between. */
    method Receive(t: Id, size: nat, wait: bool) returns (r: Got)
      requires Valid() && waiters.Running(t) && t !in waiters.wokenSenders && size > 0
      modifies this, next, waiters
      ensures waiters.prio == old(waiters.prio)
      ensures Valid() && flight == old(flight)
      ensures if old(queue) != [] then r.Bytes? else r == if wait then Sleeps else Nothing
      ensures r.Bytes? ==> old(Messages()) != [] && Messages() == old(Messages())[1..]
      ensures r.Bytes? ==> r.bytes <= old(Messages())[0] && |r.bytes| == if size > msgSize then msgSize else size
      ensures !r.Bytes? ==> Messages() == old(Messages())
    {
      var p := Take(t, wait);
      if !p.Message? {
        return if p == Empty then Nothing else Sleeps;
      }
      var b := Deliver(p.m, size);
      r := Bytes(b);
    }

    /** The part of rt_mq_recv after a message has been taken. */
    method Deliver(m: nat, size: nat) returns (buffer: seq<Byte>)
      requires Valid() && m in flight && flight[m].Receiving?
      modifies next, `free, `spare, `flight, waiters
      ensures waiters.prio == old(waiters.prio)
      ensures Valid() && flight == old(flight) - {m} && Messages() == old(Messages())
      ensures |buffer| == (if size > msgSize then msgSize else size) && buffer <= old(flight[m]).body
    {
      buffer := CopyOut(m, size);
      GiveBack(m);
    }

    /** rt_thread_timeout of a thread that sleeps on the queue. */
    method Expire(t: Id)
      requires Valid() && (t in waiters.receivers || t in waiters.senders)
      modifies waiters
      ensures waiters.prio == old(waiters.prio)
      ensures Valid() && waiters.Running(t)
      ensures waiters.receivers == Without(old(waiters.receivers), t)
      ensures waiters.senders == Without(old(waiters.senders), t)
      ensures waiters.wokenReceivers == old(waiters.wokenReceivers) && waiters.wokenSenders == old(waiters.wokenSenders)
    {
      assert waiters.receivers == [] ==> Without(waiters.receivers, t) == [];
      assert waiters.senders == [] ==> Without(waiters.senders, t) == [];
      waiters.Expire(t);
    }

    /** A change of the priority of a thread. */
    method SetPriority(t: Id, p: int)
      requires Valid() && t in waiters.prio
      modifies waiters
      ensures Valid() && View() == old(View()).(prio := old(waiters.prio)[t := p])
    {
      waiters.SetPriority(t, p);
    }

    /** rt_mq_control, RT_IPC_CMD_RESET: all sleepers are resumed with an error, the queued messages are
        dropped, and the slots in flight stay with their threads. */
    method Reset()
      requires Valid()
      modifies this, next, waiters
      ensures waiters.prio == old(waiters.prio)
      ensures Valid() && queue == [] && Messages() == [] && flight == old(flight)
      ensures spare == S.Reversed(old(queue)) + old(spare)
      ensures waiters.receivers == [] && waiters.senders == []
      ensures waiters.wokenReceivers == old(waiters.wokenReceivers) && waiters.wokenSenders == old(waiters.wokenSenders)
    {
      waiters.ResumeAll();
      DropAll();
      entry := 0;
    }

    /** The loop of the reset. */
    method DropAll()
      requires LinksOk()
      modifies this, next
      ensures LinksOk() && queue == [] && flight == old(flight) && spare == S.Reversed(old(queue)) + old(spare)
    {
      while head != Null
        modifies this, next
        invariant LinksOk() && flight == old(flight)
        invariant S.Reversed(queue) + spare == S.Reversed(old(queue)) + old(spare)
        decreases |queue|
      {
        Moved(queue, spare);
        DropHead();
      }
      assert S.Reversed([]) + spare == spare;
    }

    /** One round of the loop of the reset. */
    method DropHead()
      requires LinksOk() && queue != []
      modifies this, next
      ensures LinksOk() && flight == old(flight) && queue == old(queue)[1..] && spare == [old(queue)[0]] + old(spare)
    {
      var m := head.slot;
      Unqueue();
      flight := flight[m := S.Receiving(0, [])];
      assert flight.Keys == old(flight).Keys + {m};
      FreeSlot(m);
      assert flight == old(flight);
    }

    // ---------- any interleaving ----------

    /** What the runs of MessageSpec start from and keep. */
    lemma ValidGood()
      requires Valid()
      ensures S.Good(View())
    {
    }

    /** One operation of some thread, whatever other threads are in the middle of. */
    method Do(op: S.Op)
      requires Valid() && S.Allowed(View(), op)
      modifies this, next, data, waiters
      ensures Valid() && S.Good(View()) && S.Good(old(View())) && View() == S.Step(old(View()), op)
    {
      ValidGood();
      S.StepGood(View(), op);
      match op
      case Grab(t, urgent, wait) => DoGrab(t, urgent, wait);
      case Copy(m, urgent, buffer) => DoCopy(m, urgent, buffer);
      case Link(m, urgent) => DoLink(m, urgent);
      case Take(t, wait) => DoTake(t, wait);
      case GiveBack(m) => DoGiveBack(m);
      case Expire(t) => DoExpire(t);
      case Reset => DoReset();
      case SetPriority(t, p) => SetPriority(t, p);
    }

    method DoGrab(t: Id, urgent: bool, wait: bool)
      requires Valid() && S.Good(View()) && S.Allowed(View(), S.Grab(t, urgent, wait))
      modifies this, next, data, waiters
      ensures Valid() && View() == S.Step(old(View()), S.Grab(t, urgent, wait))
    {
      var _ := GrabSlot(t, wait, urgent);
    }

    method DoCopy(m: nat, urgent: bool, buffer: seq<Byte>)
      requires Valid() && S.Good(View()) && S.Allowed(View(), S.Copy(m, urgent, buffer))
      modifies this, next, data, waiters
      ensures Valid() && View() == S.Step(old(View()), S.Copy(m, urgent, buffer))
    {
      Fill(m, buffer, !urgent);
    }

    method DoLink(m: nat, urgent: bool)
      requires Valid() && S.Good(View()) && S.Allowed(View(), S.Link(m, urgent))
      modifies this, next, data, waiters
      ensures Valid() && View() == S.Step(old(View()), S.Link(m, urgent))
    {
      if urgent {
        LinkHead(m);
      } else {
        LinkTail(m);
      }
    }

    method DoTake(t: Id, wait: bool)
      requires Valid() && S.Good(View()) && S.Allowed(View(), S.Take(t, wait))
      modifies this, next, data, waiters
      ensures Valid() && View() == S.Step(old(View()), S.Take(t, wait))
    {
      var _ := Take(t, wait);
    }

    method DoGiveBack(m: nat)
      requires Valid() && S.Good(View()) && S.Allowed(View(), S.GiveBack(m))
      modifies this, next, data, waiters
      ensures Valid() && View() == S.Step(old(View()), S.GiveBack(m))
    {
      GiveBack(m);
    }

    method DoExpire(t: Id)
      requires Valid() && S.Good(View()) && S.Allowed(View(), S.Expire(t))
      modifies this, next, data, waiters
      ensures Valid() && View() == S.Step(old(View()), S.Expire(t))
    {
      Expire(t);
    }

    method DoReset()
      requires Valid() && S.Good(View()) && S.Allowed(View(), S.Reset)
      modifies this, next, data, waiters
      ensures Valid() && View() == S.Step(old(View()), S.Reset)
    {
      Reset();
    }
  }
}
