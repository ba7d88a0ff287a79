/** The message queue seen as slots in three places: queued, free, or in flight with one thread, which copies
    into or out of it while interrupts are enabled. One operation is one section that runs with interrupts
    disabled, or one copy between two; operations of different threads come in any order. */
module MessageSpec {
  import opened StableOrder
  import opened WaitQueue
  import opened Waiters

  type Byte = bv8

  /** Why a slot is in flight: a sender has yet to copy its message into it, or has done so, or a receiver
      is copying the message `body` out of it. */
  datatype Job =
    | Sending(t: Id, urgent: bool)
    | Copied(t: Id, urgent: bool, body: seq<Byte>)
    | Receiving(t: Id, body: seq<Byte>)

  datatype State = State(
    size: nat,
    queue: seq<nat>,
    spare: seq<nat>,
    flight: map<nat, Job>,
    data: seq<seq<Byte>>,
    flag: Flag,
    prio: map<Id, int>,
    asleep: Sleepers)

  datatype Op =
    | Grab(t: Id, urgent: bool, wait: bool) // first section of rt_mq_send_wait and rt_mq_urgent
    | Copy(m: nat, urgent: bool, buffer: seq<Byte>) // the copy into the slot
    | Link(m: nat, urgent: bool)              // second section of either
    | Take(t: Id, wait: bool)               // first section of rt_mq_recv
    | GiveBack(m: nat)                      // second section of rt_mq_recv
    | Expire(t: Id)                         // rt_thread_timeout of a sleeping thread
    | Reset                                 // rt_mq_control, RT_IPC_CMD_RESET
    | SetPriority(t: Id, p: int)            // a change of the priority of any thread

  // ---------- what holds in every state ----------

  /** Every slot is in exactly one place: queued, free, or in flight with one thread. */
  ghost predicate OnePlace(queue: seq<nat>, spare: seq<nat>, flight: set<nat>, n: nat) {
    && Distinct(queue) && Distinct(spare) && (forall i :: 0 <= i < |queue| ==> queue[i] < n)
    && (forall m :: m in queue ==> m < n && m !in spare && m !in flight)
    && (forall m :: m in spare ==> m < n && m !in flight)
    && (forall m :: m in flight ==> m < n)
    && (forall m :: 0 <= m < n ==> m in queue || m in spare || m in flight)
  }

  /** A slot in flight holds the message its thread copied into it or is copying out of it. */
  ghost predicate JobsOk(flight: map<nat, Job>, data: seq<seq<Byte>>) {
    forall m :: m in flight && !flight[m].Sending? ==> m < |data| && data[m] == flight[m].body
  }

  ghost predicate Good(s: State) {
    && OnePlace(s.queue, s.spare, s.flight.Keys, |s.data|) && JobsOk(s.flight, s.data)
    && (forall m :: 0 <= m < |s.data| ==> |s.data[m]| == s.size)
    && SleepersOk(s.prio, s.asleep) && Served(s.asleep, |s.queue|, |s.spare|)
  }

  // ---------- the steps ----------

  /** The thread is awake, as one that runs is unless it waited with the scheduler locked; a woken one must finish what
      it was doing first. */
  ghost predicate Awake(s: State, t: Id) {
    t in s.prio && t !in s.asleep.receivers && t !in s.asleep.senders
  }

  ghost predicate Allowed(s: State, op: Op) {
    match op
    case Grab(t, urgent, wait) => Awake(s, t) && t !in s.asleep.wokenReceivers && (urgent ==> !wait)
    case Copy(m, urgent, buffer) => m in s.flight && s.flight[m].Sending? && s.flight[m].urgent == urgent &&
      |buffer| <= s.size
    case Link(m, urgent) => m in s.flight && s.flight[m].Copied? && s.flight[m].urgent == urgent
    case Take(t, wait) => Awake(s, t) && t !in s.asleep.wokenSenders
    case GiveBack(m) => m in s.flight && s.flight[m].Receiving?
    case Expire(t) => t in s.asleep.receivers || t in s.asleep.senders
    case Reset => true
    case SetPriority(t, p) => t in s.prio
  }

  ghost function Reversed(s: seq<nat>): (r: seq<nat>) {
    if s == [] then [] else Reversed(s[1..]) + [s[0]]
  }

  /** The slot is filled with the message; bytes behind it stay. */
  function Filled(bytes: seq<Byte>, buffer: seq<Byte>): (r: seq<Byte>)
    requires |buffer| <= |bytes|
    ensures |r| == |bytes| && buffer <= r
  {
    buffer + bytes[|buffer|..]
  }

  ghost function ReceiverWoken(w: Sleepers): Sleepers {
    w.(receivers := Rest(w.receivers), wokenReceivers := w.wokenReceivers + First(w.receivers))
  }

  ghost function SenderWoken(w: Sleepers): Sleepers {
    w.(senders := Rest(w.senders), wokenSenders := w.wokenSenders + First(w.senders))
  }

  ghost function Step(s: State, op: Op): State
    requires Good(s) && Allowed(s, op)
  {
    match op
    case Grab(t, urgent, wait) =>
      var w := s.asleep.(wokenSenders := s.asleep.wokenSenders - {t});
      if s.spare != [] then s.(spare := s.spare[1..], flight := s.flight[s.spare[0] := Sending(t, urgent)], asleep := w)
      else if wait then s.(asleep := w.(senders := Enqueue(s.flag, w.senders, t, s.prio)))
      else s.(asleep := w)
    case Copy(m, urgent, buffer) =>
      var body := Filled(s.data[m], buffer);
      s.(flight := s.flight[m := Copied(s.flight[m].t, urgent, body)], data := s.data[m := body])
    case Link(m, urgent) =>
      s.(queue := if urgent then [m] + s.queue else s.queue + [m], flight := s.flight - {m},
        asleep := ReceiverWoken(s.asleep))
    case Take(t, wait) =>
      var w := s.asleep.(wokenReceivers := s.asleep.wokenReceivers - {t});
      if s.queue != [] then
        s.(queue := s.queue[1..], flight := s.flight[s.queue[0] := Receiving(t, s.data[s.queue[0]])], asleep := w)
      else if wait then s.(asleep := w.(receivers := Enqueue(s.flag, w.receivers, t, s.prio)))
      else s.(asleep := w)
    case GiveBack(m) =>
      s.(spare := [m] + s.spare, flight := s.flight - {m}, asleep := SenderWoken(s.asleep))
    case Expire(t) =>
      s.(asleep := s.asleep.(receivers := Without(s.asleep.receivers, t), senders := Without(s.asleep.senders, t)))
    case Reset =>
      s.(queue := [], spare := Reversed(s.queue) + s.spare, asleep := s.asleep.(receivers := [], senders := []))
    case SetPriority(t, p) => s.(prio := s.prio[t := p])
  }

  lemma HeadTail(s: seq<nat>)
    requires s != [] && Distinct(s)
    ensures Distinct(s[1..]) && s[0] !in s[1..] && forall x :: x in s <==> x == s[0] || x in s[1..]
  {
    assert s == [s[0]] + s[1..];
  }

  lemma Front(m: nat, s: seq<nat>)
    requires Distinct(s) && m !in s
    ensures Distinct([m] + s) && forall x :: x in [m] + s <==> x == m || x in s
  {
  }

  lemma Back(s: seq<nat>, m: nat)
    requires Distinct(s) && m !in s
    ensures Distinct(s + [m]) && forall x :: x in s + [m] <==> x == m || x in s
  {
  }

  lemma {:induction false} ReversedIn(s: seq<nat>)
    ensures forall x :: x in Reversed(s) <==> x in s
    ensures Distinct(s) ==> Distinct(Reversed(s))
  {
    if s != [] {
      assert s == [s[0]] + s[1..];
      ReversedIn(s[1..]);
      if Distinct(s) { HeadTail(s); Back(Reversed(s[1..]), s[0]); }
    }
  }

  lemma Apart(a: seq<nat>, b: seq<nat>)
    requires Distinct(a) && Distinct(b) && forall x :: x in a ==> x !in b
    ensures Distinct(a + b) && forall x :: x in a + b <==> x in a || x in b
  {
    var r := a + b;
    forall i, j | 0 <= i < j < |r| ensures r[i] != r[j] {
      if i < |a| <= j { assert r[i] in a && r[j] == b[j - |a|] && b[j - |a|] in b; }
    }
  }

  /** A slot taken off the front of either list, and one put on a list. */
  lemma Unqueued(queue: seq<nat>, spare: seq<nat>, flight: set<nat>, n: nat)
    requires OnePlace(queue, spare, flight, n) && queue != []
    ensures queue[0] < n && queue[0] !in flight && OnePlace(queue[1..], spare, flight + {queue[0]}, n)
  {
    HeadTail(queue);
    assert queue[0] in queue;
  }

  lemma Unspared(queue: seq<nat>, spare: seq<nat>, flight: set<nat>, n: nat)
    requires OnePlace(queue, spare, flight, n) && spare != []
    ensures spare[0] < n && spare[0] !in flight && OnePlace(queue, spare[1..], flight + {spare[0]}, n)
  {
    HeadTail(spare);
  }

  lemma Put(queue: seq<nat>, spare: seq<nat>, flight: set<nat>, n: nat, m: nat)
    requires OnePlace(queue, spare, flight, n) && m in flight
    ensures OnePlace(queue + [m], spare, flight - {m}, n)
    ensures OnePlace([m] + queue, spare, flight - {m}, n)
    ensures OnePlace(queue, [m] + spare, flight - {m}, n)
  {
    Back(queue, m);
    Front(m, queue);
    Front(m, spare);
  }

  /** The slots of a step stay in one place each. */
  lemma StepSlots(s: State, op: Op)
    requires Good(s) && Allowed(s, op)
    ensures var r := Step(s, op); OnePlace(r.queue, r.spare, r.flight.Keys, |r.data|)
  {
    var r := Step(s, op);
    match op
    case Grab(t, urgent, wait) =>
      if s.spare != [] {
        Unspared(s.queue, s.spare, s.flight.Keys, |s.data|);
        assert r.flight.Keys == s.flight.Keys + {s.spare[0]};
      }
    case Copy(m, urgent, buffer) => assert r.flight.Keys == s.flight.Keys;
    case Link(m, urgent) =>
      Put(s.queue, s.spare, s.flight.Keys, |s.data|, m);
      assert r.flight.Keys == s.flight.Keys - {m};
    case Take(t, wait) =>
      if s.queue != [] {
        Unqueued(s.queue, s.spare, s.flight.Keys, |s.data|);
        assert r.flight.Keys == s.flight.Keys + {s.queue[0]};
      }
    case GiveBack(m) =>
      Put(s.queue, s.spare, s.flight.Keys, |s.data|, m);
      assert r.flight.Keys == s.flight.Keys - {m};
    case Expire(t) =>
    case Reset =>
      ReversedIn(s.queue);
      Apart(Reversed(s.queue), s.spare);
    case SetPriority(t, p) =>
  }

  /** The bytes of the slots in flight stay right. */
  lemma StepBytes(s: State, op: Op)
    requires Good(s) && Allowed(s, op)
    ensures var r := Step(s, op); JobsOk(r.flight, r.data) && |r.data| == |s.data| && forall m :: 0 <= m < |r.data| ==>
      |r.data[m]| == r.size
  {
  }

  lemma StepSleepers(s: State, op: Op)
    requires Good(s) && Allowed(s, op)
    ensures var r := Step(s, op); SleepersOk(r.prio, r.asleep) && Served(r.asleep, |r.queue|, |r.spare|)
  {
    var w := s.asleep;
    match op
    case Grab(t, urgent, wait) =>
      Discard(w.wokenSenders, t);
      Joined(s.flag, w.senders, t, s.prio);
    case Copy(m, urgent, buffer) =>
    case Link(m, urgent) =>
      if w.receivers != [] { Left(w.receivers, s.prio); Added(w.wokenReceivers, w.receivers[0]); }
    case Take(t, wait) =>
      Discard(w.wokenReceivers, t);
      Joined(s.flag, w.receivers, t, s.prio);
    case GiveBack(m) =>
      if w.senders != [] { Left(w.senders, s.prio); Added(w.wokenSenders, w.senders[0]); }
    case Expire(t) =>
      LeftAny(w.receivers, t, s.prio);
      LeftAny(w.senders, t, s.prio);
    case Reset =>
    case SetPriority(t, p) =>
  }

  /** Every operation keeps the slots in one place each and strands nobody, whatever else is under way. */
  lemma StepGood(s: State, op: Op)
    requires Good(s) && Allowed(s, op)
    ensures Good(Step(s, op))
  {
    StepSlots(s, op);
    StepBytes(s, op);
    StepSleepers(s, op);
  }

  // ---------- the bytes of a slot in flight ----------

  /** The slot an operation of the thread that has it in flight is about. */
  predicate Concerns(op: Op, m: nat) {
    match op
    case Copy(x, _, _) => x == m
    case Link(x, _) => x == m
    case GiveBack(x) => x == m
    case _ => false
  }

  /** Nobody else touches a slot in flight. */
  lemma OthersKeep(s: State, op: Op, m: nat)
    requires Good(s) && Allowed(s, op) && m in s.flight && !Concerns(op, m)
    ensures var r := Step(s, op); m in r.flight && r.flight[m] == s.flight[m]
  {
    if op.Grab? && s.spare != [] { assert s.spare[0] in s.spare; }
    if op.Take? && s.queue != [] { assert s.queue[0] in s.queue; }
  }

  // ---------- messages ----------

  /** The bodies of the slots in `s`. */
  ghost function Bodies(data: seq<seq<Byte>>, s: seq<nat>): (r: seq<seq<Byte>>)
    requires forall i :: 0 <= i < |s| ==> s[i] < |data|
    ensures |r| == |s|
  {
    if s == [] then [] else [data[s[0]]] + Bodies(data, s[1..])
  }

  lemma {:induction false} BodiesFrame(data: seq<seq<Byte>>, s: seq<nat>, data': seq<seq<Byte>>)
    requires |data'| == |data| && forall i :: 0 <= i < |s| ==> s[i] < |data| && data'[s[i]] == data[s[i]]
    ensures Bodies(data', s) == Bodies(data, s)
  {
    if s != [] { BodiesFrame(data, s[1..], data'); }
  }

  lemma {:induction false} BodiesConcat(data: seq<seq<Byte>>, a: seq<nat>, b: seq<nat>)
    requires forall i :: 0 <= i < |a| ==> a[i] < |data|
    requires forall i :: 0 <= i < |b| ==> b[i] < |data|
    ensures Bodies(data, a + b) == Bodies(data, a) + Bodies(data, b)
  {
    if a == [] {
      assert a + b == b;
    } else {
      assert (a + b)[1..] == a[1..] + b;
      BodiesConcat(data, a[1..], b);
    }
  }

  /** The queued messages, in the order in which they will be received. */
  ghost function Messages(s: State): seq<seq<Byte>>
    requires Good(s)
  {
    Bodies(s.data, s.queue)
  }

  /** What an operation does to the queued messages. */
  datatype Act = Nothing | PushBack(body: seq<Byte>) | PushFront(body: seq<Byte>) | Pop(body: seq<Byte>) | Clear

  ghost function ActOf(s: State, op: Op): Act
    requires Good(s) && Allowed(s, op)
  {
    match op
    case Link(m, urgent) => if urgent then PushFront(s.flight[m].body) else PushBack(s.flight[m].body)
    case Take(t, wait) => if s.queue != [] then Pop(s.data[s.queue[0]]) else Nothing
    case Reset => Clear
    case _ => Nothing
  }

  datatype Option<T> = None | Some(value: T)

  /** A plain double-ended queue of whole messages: only its front can be popped. */
  function Deque(q: seq<seq<Byte>>, a: Act): Option<seq<seq<Byte>>> {
    match a
    case Nothing => Some(q)
    case PushBack(body) => Some(q + [body])
    case PushFront(body) => Some([body] + q)
    case Pop(body) => if q != [] && q[0] == body then Some(q[1..]) else None
    case Clear => Some([])
  }

  /** One operation moves whole messages at one point, as on a plain double-ended queue. */
  lemma StepDeque(s: State, op: Op)
    requires Good(s) && Allowed(s, op)
    ensures Good(Step(s, op)) && Deque(Messages(s), ActOf(s, op)) == Some(Messages(Step(s, op)))
  {
    StepGood(s, op);
    StepBodies(s, op, Step(s, op), ActOf(s, op));
  }

  lemma StepBodies(s: State, op: Op, r: State, act: Act)
    requires Good(s) && Allowed(s, op) && r == Step(s, op) && act == ActOf(s, op)
    requires forall i :: 0 <= i < |r.queue| ==> r.queue[i] < |r.data|
    ensures Deque(Bodies(s.data, s.queue), act) == Some(Bodies(r.data, r.queue))
  {
    match op
    case Copy(m, urgent, buffer) => CopyBodies(s, m, urgent, buffer);
    case Link(m, urgent) => LinkBodies(s.data, s.queue, m);
    case Take(t, wait) => TakeBodies(s.data, s.queue);
    case _ => assert Bodies(s.data, []) == [];
  }

  lemma TakeBodies(data: seq<seq<Byte>>, queue: seq<nat>)
    requires forall i :: 0 <= i < |queue| ==> queue[i] < |data|
    ensures queue != [] ==>
      Bodies(data, queue)[0] == data[queue[0]] && Bodies(data, queue)[1..] == Bodies(data, queue[1..])
  {
  }

  lemma CopyBodies(s: State, m: nat, urgent: bool, buffer: seq<Byte>)
    requires Good(s) && Allowed(s, Copy(m, urgent, buffer))
    ensures Bodies(Step(s, Copy(m, urgent, buffer)).data, s.queue) == Bodies(s.data, s.queue)
  {
    forall i | 0 <= i < |s.queue| ensures s.queue[i] != m { assert s.queue[i] in s.queue; }
    BodiesFrame(s.data, s.queue, s.data[m := Filled(s.data[m], buffer)]);
  }

  lemma LinkBodies(data: seq<seq<Byte>>, queue: seq<nat>, m: nat)
    requires m < |data| && forall i :: 0 <= i < |queue| ==> queue[i] < |data|
    ensures Bodies(data, [m] + queue) == [data[m]] + Bodies(data, queue)
    ensures Bodies(data, queue + [m]) == Bodies(data, queue) + [data[m]]
  {
    assert Bodies(data, [m]) == [data[m]] by { assert [m][1..] == []; }
    BodiesConcat(data, [m], queue);
    BodiesConcat(data, queue, [m]);
  }

  // ---------- runs ----------

  /** The state after the operations `ops`, if each can come in turn, and what they did to the messages. */
  ghost function After(s: State, ops: seq<Op>): (r: Option<(State, seq<Act>)>)
    requires Good(s)
    ensures r.Some? ==> Good(r.value.0) && |r.value.1| == |ops|
  {
    if ops == [] then Some((s, [])) else
      var n := |ops| - 1;
      match After(s, ops[..n])
      case None => None
      case Some(x) =>
        if Allowed(x.0, ops[n]) then
          StepGood(x.0, ops[n]);
          Some((Step(x.0, ops[n]), x.1 + [ActOf(x.0, ops[n])]))
        else None
  }

  function Replay(q: seq<seq<Byte>>, acts: seq<Act>): Option<seq<seq<Byte>>> {
    if acts == [] then Some(q) else
      var n := |acts| - 1;
      match Replay(q, acts[..n])
      case None => None
      case Some(x) => Deque(x, acts[n])
  }

  /** Any interleaving of senders, urgent senders, receivers, timeouts and resets does to the messages what its
      linking and taking sections do, in their order, to a plain double-ended queue. */
  lemma {:induction false} RunIsDeque(s: State, ops: seq<Op>)
    requires Good(s) && After(s, ops).Some?
    ensures var (r, acts) := After(s, ops).value; Replay(Messages(s), acts) == Some(Messages(r))
  {
    if ops != [] {
      var n := |ops| - 1;
      RunIsDeque(s, ops[..n]);
      var x := After(s, ops[..n]).value;
      StepDeque(x.0, ops[n]);
      var acts := x.1 + [ActOf(x.0, ops[n])];
      assert acts[..|acts| - 1] == x.1;
    }
  }

  lemma {:induction false} RunKeeps(s: State, ops: seq<Op>, m: nat)
    requires Good(s) && After(s, ops).Some? && m in s.flight && forall i :: 0 <= i < |ops| ==> !Concerns(ops[i], m)
    ensures var r := After(s, ops).value.0; m in r.flight && r.flight[m] == s.flight[m]
  {
    if ops != [] {
      var n := |ops| - 1;
      RunKeeps(s, ops[..n], m);
      OthersKeep(After(s, ops[..n]).value.0, ops[n], m);
    }
  }

  /** What a sender copied into its slot is what it links, whatever others do in between. */
  lemma SentWhole(s: State, m: nat, urgent: bool, buffer: seq<Byte>, ops: seq<Op>)
    requires Good(s) && Allowed(s, Copy(m, urgent, buffer)) && forall i :: 0 <= i < |ops| ==> !Concerns(ops[i], m)
    requires Good(Step(s, Copy(m, urgent, buffer))) && After(Step(s, Copy(m, urgent, buffer)), ops).Some?
    ensures var r := After(Step(s, Copy(m, urgent, buffer)), ops).value.0;
      && Allowed(r, Link(m, urgent))
      && ActOf(r, Link(m, urgent)) ==
        (if urgent then PushFront(Filled(s.data[m], buffer)) else PushBack(Filled(s.data[m], buffer)))
  {
    RunKeeps(Step(s, Copy(m, urgent, buffer)), ops, m);
  }

  /** The message a receiver takes from the front is what it copies out later, whatever others do in between. */
  lemma ReceivedWhole(s: State, t: Id, wait: bool, ops: seq<Op>)
    requires Good(s) && Allowed(s, Take(t, wait)) && s.queue != []
    requires forall i :: 0 <= i < |ops| ==> !Concerns(ops[i], s.queue[0])
    requires Good(Step(s, Take(t, wait))) && After(Step(s, Take(t, wait)), ops).Some?
    ensures var r, m := After(Step(s, Take(t, wait)), ops).value.0, s.queue[0];
      m < |r.data| && r.data[m] == Messages(s)[0] && Allowed(r, GiveBack(m))
  {
    RunKeeps(Step(s, Take(t, wait)), ops, s.queue[0]);
  }
}
