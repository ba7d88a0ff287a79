/** The event object of rt-thread/src/ipc.c: threads wait until all (AND) or any (OR) of some event bits
    are set. */
module EventSpec {
  import opened StableOrder
  import opened WaitQueue

  type Bits = set<nat> // the one bits of a 32-bit word, as in Words

  /** A wait: the bits, whether all of them are wanted (else any), and whether they are cleared on receipt. */
  datatype Want = Want(bits: Bits, all: bool, clear: bool)

  /** The condition of a wait. */
  predicate Satisfied(w: Want, events: Bits) {
    if w.all then events * w.bits == w.bits else events * w.bits != {}
  }

  /** What rt_event_recv does at once with event bits `events`: the received bits and the bits left; nothing
      if the condition does not hold. */
  datatype Receipt = Received(bits: Bits, left: Bits) | NotYet

  function ReceiveNow(w: Want, events: Bits): Receipt {
    if Satisfied(w, events) then Received(events * w.bits, if w.clear then events - w.bits else events) else NotYet
  }

  /** Bits that disappear do not fulfil a condition. */
  lemma StaysUnsatisfied(w: Want, events: Bits, fewer: Bits)
    requires !Satisfied(w, events) && fewer <= events
    ensures !Satisfied(w, fewer)
  {
    assert fewer * w.bits <= events * w.bits <= w.bits;
  }

  /** What rt_event_send does for one waiting thread: the received bits and the bits left. */
  function WakeOne(w: Want, events: Bits): Receipt {
    if w.all then
      if w.bits * events == w.bits then Received(w.bits, if w.clear then events - w.bits else events) else NotYet
    else
      var got := w.bits * events;
      if got != {} then Received(got, if w.clear then events - got else events) else NotYet
  }

  /** A waiting thread is treated exactly as if it received at that point. */
  lemma WakeIsReceive(w: Want, events: Bits)
    ensures WakeOne(w, events) == ReceiveNow(w, events)
  {
    assert w.bits * events == events * w.bits && events - w.bits == events - (w.bits * events);
  }

  // ---------- one send ----------

  /** Result of the scan over the waiting threads: bits left, threads still waiting, threads woken with what
      they received, in this order. */
  datatype Scan = Scan(left: Bits, waiting: seq<Id>, woken: seq<(Id, Bits)>)

  ghost function ScanList(q: seq<Id>, wants: map<Id, Want>, events: Bits): Scan
    requires forall i :: 0 <= i < |q| ==> q[i] in wants
  {
    if q == [] then Scan(events, [], []) else
      match ReceiveNow(wants[q[0]], events)
      case Received(got, left) =>
        var rest := ScanList(q[1..], wants, left);
        Scan(rest.left, rest.waiting, [(q[0], got)] + rest.woken)
      case NotYet =>
        var rest := ScanList(q[1..], wants, events);
        Scan(rest.left, [q[0]] + rest.waiting, rest.woken)
  }

  /** Nobody in `q` could receive at once. */
  ghost predicate NoneSatisfied(q: seq<Id>, wants: map<Id, Want>, events: Bits)
    requires forall i :: 0 <= i < |q| ==> q[i] in wants
  {
    forall i :: 0 <= i < |q| ==> !Satisfied(wants[q[i]], events)
  }

  /** After the scan no thread that still waits could receive at once, although the bits change while the
      scan goes on. */
  lemma {:induction false} ScanLeavesNone(q: seq<Id>, wants: map<Id, Want>, events: Bits)
    requires forall i :: 0 <= i < |q| ==> q[i] in wants
    ensures var s := ScanList(q, wants, events);
      && s.left <= events
      && (forall i :: 0 <= i < |s.waiting| ==> s.waiting[i] in wants)
      && NoneSatisfied(s.waiting, wants, s.left)
  {
    if q == [] {
    } else {
      var s := ScanList(q, wants, events);
      match ReceiveNow(wants[q[0]], events)
      case Received(got, left) =>
        ScanLeavesNone(q[1..], wants, left);
      case NotYet =>
        ScanLeavesNone(q[1..], wants, events);
        StaysUnsatisfied(wants[q[0]], events, s.left);
        var rest := ScanList(q[1..], wants, events);
        forall i | 0 <= i < |s.waiting| ensures s.waiting[i] in wants && !Satisfied(wants[s.waiting[i]], s.left) {
          if i > 0 { assert s.waiting[i] == rest.waiting[i - 1]; }
        }
    }
  }

  /** Each woken thread received what an immediate receive would have given it at its turn, after the threads
      before it in the list. */
  lemma {:induction false} WokenAsReceived(q: seq<Id>, wants: map<Id, Want>, events: Bits, k: nat)
    requires k < |q| && forall i :: 0 <= i < |q| ==> q[i] in wants
    ensures var before := ScanList(q[..k], wants, events);
      match ReceiveNow(wants[q[k]], before.left)
      case Received(got, left) =>
        ScanList(q[..k + 1], wants, events) == Scan(left, before.waiting, before.woken + [(q[k], got)])
      case NotYet =>
        ScanList(q[..k + 1], wants, events) == Scan(before.left, before.waiting + [q[k]], before.woken)
  {
    ScanSnoc(q[..k], q[k], wants, events);
    assert q[..k] + [q[k]] == q[..k + 1];
  }

  lemma {:induction false} ScanSnoc(q: seq<Id>, t: Id, wants: map<Id, Want>, events: Bits)
    requires t in wants && forall i :: 0 <= i < |q| ==> q[i] in wants
    ensures forall i :: 0 <= i < |q + [t]| ==> (q + [t])[i] in wants
    ensures var before := ScanList(q, wants, events);
      match ReceiveNow(wants[t], before.left)
      case Received(got, left) => ScanList(q + [t], wants, events) ==
        Scan(left, before.waiting, before.woken + [(t, got)])
      case NotYet => ScanList(q + [t], wants, events) == Scan(before.left, before.waiting + [t], before.woken)
  {
    if q == [] {
      assert q + [t] == [t] && [t][1..] == [];
    } else {
      assert (q + [t])[1..] == q[1..] + [t];
      match ReceiveNow(wants[q[0]], events)
      case Received(got, left) => ScanSnoc(q[1..], t, wants, left);
      case NotYet => ScanSnoc(q[1..], t, wants, events);
    }
  }

  /** The threads still waiting keep their order; the others are woken. */
  lemma {:induction false} ScanSplits(q: seq<Id>, wants: map<Id, Want>, events: Bits)
    requires (forall i :: 0 <= i < |q| ==> q[i] in wants) && Distinct(q)
    ensures var s := ScanList(q, wants, events);
      && s.waiting == Select(q, set t | t in s.waiting)
      && forall t :: t in q <==> (t in s.waiting || exists i :: 0 <= i < |s.woken| && s.woken[i].0 == t)
  {
    ScanMembers(q, wants, events);
    ScanSelect(q, wants, events, set t | t in ScanList(q, wants, events).waiting);
  }

  lemma {:induction false} ScanMembers(q: seq<Id>, wants: map<Id, Want>, events: Bits)
    requires forall i :: 0 <= i < |q| ==> q[i] in wants
    ensures var s := ScanList(q, wants, events);
      && (forall t :: t in s.waiting ==> t in q)
      && forall t :: t in q <==> (t in s.waiting || exists i :: 0 <= i < |s.woken| && s.woken[i].0 == t)
  {
    if q != [] {
      assert q == [q[0]] + q[1..];
      var s := ScanList(q, wants, events);
      var events' := match ReceiveNow(wants[q[0]], events) case Received(got, left) => left case NotYet => events;
      var rest := ScanList(q[1..], wants, events');
      ScanMembers(q[1..], wants, events');
      forall t ensures t in q <==> (t in s.waiting || exists i :: 0 <= i < |s.woken| && s.woken[i].0 == t) {
        if exists i :: 0 <= i < |rest.woken| && rest.woken[i].0 == t {
          var i :| 0 <= i < |rest.woken| && rest.woken[i].0 == t;
          var j := if |s.woken| > |rest.woken| then i + 1 else i;
          assert s.woken[j].0 == t;
        }
        if t == q[0] && t !in s.waiting { assert s.woken[0].0 == t; }
        if exists i :: 0 <= i < |s.woken| && s.woken[i].0 == t {
          var i :| 0 <= i < |s.woken| && s.woken[i].0 == t;
          var j := if |s.woken| > |rest.woken| then i - 1 else i;
          assert j >= 0 ==> rest.woken[j].0 == t;
        }
      }
    }
  }

  lemma {:induction false} ScanSelect(q: seq<Id>, wants: map<Id, Want>, events: Bits, keep: set<Id>)
    requires (forall i :: 0 <= i < |q| ==> q[i] in wants) && Distinct(q)
    requires forall t :: t in q ==> (t in keep <==> t in ScanList(q, wants, events).waiting)
    ensures ScanList(q, wants, events).waiting == Select(q, keep)
  {
    if q != [] {
      assert q == [q[0]] + q[1..] && q[0] !in q[1..];
      var events' := match ReceiveNow(wants[q[0]], events) case Received(got, left) => left case NotYet => events;
      ScanMembers(q[1..], wants, events');
      ScanSelect(q[1..], wants, events', keep);
    }
  }

  // ---------- runs ----------

  datatype State = State(events: Bits, waiting: seq<Id>, wants: map<Id, Want>, prio: map<Id, int>)

  datatype Event =
    | Send(bits: Bits)
    | Recv(t: Id, want: Want, wait: bool)
    | Expire(t: Id)
    | Reset
    | SetPriority(t: Id, p: int) // a change of the priority of any thread

  /** A want that rt_event_recv accepts. */
  predicate Proper(w: Want) {
    w.bits != {}
  }

  ghost predicate Enabled(s: State, e: Event) {
    && (e.Recv? ==> e.t !in s.waiting)
    && (e.Recv? || e.SetPriority? ==> e.t in s.prio)
  }

  ghost predicate Inv(s: State) {
    && Distinct(s.waiting) &&
      (forall i :: 0 <= i < |s.waiting| ==> s.waiting[i] in s.wants && Proper(s.wants[s.waiting[i]]))
    && NoneSatisfied(s.waiting, s.wants, s.events)
    && forall t :: t in s.waiting ==> t in s.prio
  }

  ghost function Step(flag: Flag, s: State, e: Event): State
    requires Inv(s) && (e.Recv? ==> e.t in s.prio)
  {
    match e
    case Send(bits) =>
      if bits == {} then s else
        var r := ScanList(s.waiting, s.wants, s.events + bits);
        s.(events := r.left, waiting := r.waiting)
    case Recv(t, want, wait) =>
      if want.bits == {} then s else
        (match ReceiveNow(want, s.events)
         case Received(got, left) => s.(events := left)
         case NotYet =>
           if !wait then s
           else s.(waiting := Enqueue(flag, s.waiting, t, s.prio), wants := s.wants[t := want]))
    case Expire(t) => s.(waiting := Without(s.waiting, t))
    case Reset => s.(events := {}, waiting := [])
    case SetPriority(t, p) => s.(prio := s.prio[t := p])
  }

  lemma StepInv(flag: Flag, s: State, e: Event)
    requires Inv(s) && Enabled(s, e)
    ensures Inv(Step(flag, s, e))
  {
    match e
    case Send(bits) =>
      if bits != {} {
        SendInv(s, s.events + bits);
      }
    case Recv(t, want, wait) =>
      if ReceiveNow(want, s.events).Received? {
        forall i | 0 <= i < |s.waiting| ensures !Satisfied(s.wants[s.waiting[i]], ReceiveNow(want, s.events).left) {
          StaysUnsatisfied(s.wants[s.waiting[i]], s.events, ReceiveNow(want, s.events).left);
        }
      } else if wait && want.bits != {} {
        EnqueueIn(flag, s.waiting, t, s.prio);
        InsertDistinct(s.waiting, t, s.prio);
        var q := Enqueue(flag, s.waiting, t, s.prio);
        forall i | 0 <= i < |q|
          ensures q[i] in s.wants[t := want] && Proper(s.wants[t := want][q[i]]) &&
            !Satisfied(s.wants[t := want][q[i]], s.events)
        {
          assert q[i] in q;
          if q[i] != t { var j :| 0 <= j < |s.waiting| && s.waiting[j] == q[i]; }
        }
      }
    case Expire(t) =>
      WithoutIn(s.waiting, t);
      DistinctWithout(s.waiting, t);
      var q := Without(s.waiting, t);
      forall i | 0 <= i < |q| ensures q[i] in s.wants && Proper(s.wants[q[i]]) && !Satisfied(s.wants[q[i]], s.events) {
        assert q[i] in q;
        var j :| 0 <= j < |s.waiting| && s.waiting[j] == q[i];
      }
    case Reset =>
    case SetPriority(t, p) =>
  }

  lemma SendInv(s: State, events: Bits)
    requires Inv(s)
    ensures var r := ScanList(s.waiting, s.wants, events);
      Inv(s.(events := r.left, waiting := r.waiting)) && forall t :: t in r.waiting ==> t in s.waiting
  {
    var r := ScanList(s.waiting, s.wants, events);
    ScanLeavesNone(s.waiting, s.wants, events);
    ScanMembers(s.waiting, s.wants, events);
    ScanSplits(s.waiting, s.wants, events);
    SelectDistinct(s.waiting, set t | t in r.waiting);
    forall i | 0 <= i < |r.waiting| ensures Proper(s.wants[r.waiting[i]]) {
      assert r.waiting[i] in r.waiting;
      var j :| 0 <= j < |s.waiting| && s.waiting[j] == r.waiting[i];
    }
  }

  lemma {:induction false} SelectDistinct(q: seq<Id>, keep: set<Id>)
    requires Distinct(q)
    ensures Distinct(Select(q, keep))
  {
    if q != [] {
      var r := Select(q[1..], keep);
      SelectDistinct(q[1..], keep);
      SelectIn(q[1..], keep);
      assert forall i :: 0 < i < |[q[0]] + r| ==> ([q[0]] + r)[i] == r[i - 1];
    }
  }

  datatype Option<T> = None | Some(value: T)

  /** State after the events `es` of threads that have the priorities `prio` at first, if each of them can happen in
      turn. At the end of every run no thread still waits whose condition the event bits fulfil. */
  ghost function After(flag: Flag, prio: map<Id, int>, es: seq<Event>): (r: Option<State>)
    ensures r.Some? ==> Inv(r.value)
  {
    if es == [] then Some(State({}, [], map[], prio)) else
      var n := |es| - 1;
      match After(flag, prio, es[..n])
      case None => None
      case Some(s) =>
        if Enabled(s, es[n]) then
          StepInv(flag, s, es[n]);
          Some(Step(flag, s, es[n]))
        else None
  }
}
