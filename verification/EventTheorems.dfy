/** Which bits an event gives to whom, and which it keeps, bit by bit. */
module EventTheorems {
  import opened StableOrder
  import opened WaitQueue
  import opened EventSpec

  /** AND: every wanted bit is set; OR: some wanted bit is set. */
  ghost predicate Met(w: Want, events: Bits) {
    if w.all then forall b :: b in w.bits ==> b in events else exists b :: b in w.bits && b in events
  }

  /** `got` are the wanted bits that are set. */
  ghost predicate Receives(w: Want, events: Bits, got: Bits) {
    forall b :: b in got <==> b in w.bits && b in events
  }

  /** Of the bits `events`, `left` are kept: all of them, or all that were not wanted if they are to be cleared. */
  ghost predicate Leaves(w: Want, events: Bits, left: Bits) {
    forall b :: b in left <==> b in events && !(w.clear && b in w.bits)
  }

  lemma MetIff(w: Want, events: Bits)
    ensures Satisfied(w, events) <==> Met(w, events)
  {
    if Met(w, events) {
      if w.all {
        assert events * w.bits == w.bits;
      } else {
        var b :| b in w.bits && b in events;
        assert b in events * w.bits;
      }
    } else if !w.all {
      assert events * w.bits == {};
    }
  }

  /** rt_event_recv: a condition that holds takes nothing but the wanted bits, if they are to be cleared, and no list is
      joined; one that does not hold takes nothing. */
  lemma RecvExact(flag: Flag, s: State, t: Id, want: Want, wait: bool)
    requires Inv(s) && Enabled(s, Recv(t, want, wait)) && Proper(want)
    ensures var r := Step(flag, s, Recv(t, want, wait));
      && (Met(want, s.events) ==> Leaves(want, s.events, r.events) && r.waiting == s.waiting)
      && (!Met(want, s.events) ==> r.events == s.events)
      && (t in r.waiting <==> !Met(want, s.events) && wait)
      && forall x :: x != t ==> (x in r.waiting <==> x in s.waiting)
  {
    MetIff(want, s.events);
    EnqueueIn(flag, s.waiting, t, s.prio);
  }

  // ---------- the scan of rt_event_send ----------

  /** What the scan does at its turn to the thread behind the first `k`: woken exactly if its condition holds of the
      bits left by then, it receives those of its bits that are left, and they are kept or cleared as it asked. */
  lemma ScanTurn(q: seq<Id>, wants: map<Id, Want>, events: Bits, k: nat)
    requires k < |q| && forall i :: 0 <= i < |q| ==> q[i] in wants
    ensures var a, b := ScanList(q[..k], wants, events), ScanList(q[..k + 1], wants, events);
      var w := wants[q[k]];
      if Met(w, a.left) then
        && |b.woken| == |a.woken| + 1 && b.woken[..|a.woken|] == a.woken && b.woken[|a.woken|].0 == q[k]
        && Receives(w, a.left, b.woken[|a.woken|].1) && Leaves(w, a.left, b.left) && b.waiting == a.waiting
      else b == a.(waiting := a.waiting + [q[k]])
  {
    WokenAsReceived(q, wants, events, k);
    MetIff(wants[q[k]], ScanList(q[..k], wants, events).left);
  }

  /** The threads woken are among those whose waits are known. */
  ghost predicate Known(woken: seq<(Id, Bits)>, wants: map<Id, Want>) {
    forall i :: 0 <= i < |woken| ==> woken[i].0 in wants
  }

  /** How many clearing threads received bit `b`. */
  ghost function Clearings(woken: seq<(Id, Bits)>, wants: map<Id, Want>, b: nat): nat
    requires Known(woken, wants)
  {
    if woken == [] then 0
    else (if wants[woken[0].0].clear && b in woken[0].1 then 1 else 0) + Clearings(woken[1..], wants, b)
  }

  function Set(b: nat, events: Bits): nat {
    if b in events then 1 else 0
  }

  lemma {:induction false} WokenKnown(q: seq<Id>, wants: map<Id, Want>, events: Bits)
    requires forall i :: 0 <= i < |q| ==> q[i] in wants
    ensures Known(ScanList(q, wants, events).woken, wants)
  {
    if q != [] {
      match ReceiveNow(wants[q[0]], events)
      case Received(got, left) =>
        WokenKnown(q[1..], wants, left);
      case NotYet => WokenKnown(q[1..], wants, events);
    }
  }

  /** Every bit that was set either stays, received by no clearing thread, or is gone, received by exactly one. */
  lemma {:induction false} BitsConserved(q: seq<Id>, wants: map<Id, Want>, events: Bits, b: nat)
    requires forall i :: 0 <= i < |q| ==> q[i] in wants
    ensures var s := ScanList(q, wants, events);
      Known(s.woken, wants) && Clearings(s.woken, wants, b) + Set(b, s.left) == Set(b, events)
  {
    if q != [] {
      WokenKnown(q, wants, events);
      match ReceiveNow(wants[q[0]], events)
      case Received(got, left) =>
        BitsConserved(q[1..], wants, left, b);
        var rest := ScanList(q[1..], wants, left);
        assert ([(q[0], got)] + rest.woken)[1..] == rest.woken;
      case NotYet => BitsConserved(q[1..], wants, events, b);
    }
  }

  /** A thread woken after a clearing one receives none of its bits. */
  lemma {:induction false} ClearedOnce(q: seq<Id>, wants: map<Id, Want>, events: Bits, i: nat, j: nat)
    requires forall i :: 0 <= i < |q| ==> q[i] in wants
    requires i < j < |ScanList(q, wants, events).woken|
    ensures var woken := ScanList(q, wants, events).woken;
      && woken[i].0 in wants && woken[j].0 in wants && woken[j].1 <= events
      && (wants[woken[i].0].clear ==> woken[i].1 !! woken[j].1)
  {
    WokenKnown(q, wants, events);
    match ReceiveNow(wants[q[0]], events)
    case Received(got, left) =>
      if i > 0 {
        ClearedOnce(q[1..], wants, left, i - 1, j - 1);
      } else {
        ReceivedWithin(q[1..], wants, left, j - 1);
      }
    case NotYet => ClearedOnce(q[1..], wants, events, i, j);
  }

  lemma {:induction false} ReceivedWithin(q: seq<Id>, wants: map<Id, Want>, events: Bits, j: nat)
    requires (forall i :: 0 <= i < |q| ==> q[i] in wants) && j < |ScanList(q, wants, events).woken|
    ensures ScanList(q, wants, events).woken[j].1 <= events
  {
    match ReceiveNow(wants[q[0]], events)
    case Received(got, left) => if j > 0 { ReceivedWithin(q[1..], wants, left, j - 1); }
    case NotYet => ReceivedWithin(q[1..], wants, events, j);
  }

  // ---------- runs ----------

  /** How many clearing threads receive bit `b` when `e` happens: those the scan wakes, or the caller at once. */
  ghost function ClearedBy(s: State, e: Event, b: nat): nat
    requires Inv(s)
  {
    match e
    case Send(bits) =>
      if bits == {} then 0 else
        WokenKnown(s.waiting, s.wants, s.events + bits);
        Clearings(ScanList(s.waiting, s.wants, s.events + bits).woken, s.wants, b)
    case Recv(t, want, wait) => if Met(want, s.events) && want.clear && b in want.bits && b in s.events then 1 else 0
    case _ => 0
  }

  function SentBy(e: Event): Bits {
    if e.Send? then e.bits else {}
  }

  /** Except by a reset no bit gets lost: it stays set or goes to one clearing thread. */
  lemma StepConserves(flag: Flag, s: State, e: Event, b: nat)
    requires Inv(s) && Enabled(s, e) && !e.Reset?
    ensures ClearedBy(s, e, b) + Set(b, Step(flag, s, e).events) == Set(b, s.events + SentBy(e))
  {
    match e
    case Send(bits) =>
      if bits != {} {
        BitsConserved(s.waiting, s.wants, s.events + bits, b);
      } else {
        assert s.events + bits == s.events;
      }
    case Recv(t, want, wait) => if want.bits != {} { RecvExact(flag, s, t, want, wait); }
    case _ =>
  }

  /** Sends of bit `b` among the events. */
  function Sends(es: seq<Event>, b: nat): nat {
    if es == [] then 0 else
      var n := |es| - 1;
      Sends(es[..n], b) + Set(b, SentBy(es[n]))
  }

  /** Clearing receipts of bit `b` in the run. */
  ghost function Cleared(flag: Flag, prio: map<Id, int>, es: seq<Event>, b: nat): nat
    requires After(flag, prio, es).Some?
  {
    if es == [] then 0 else
      var n := |es| - 1;
      Cleared(flag, prio, es[..n], b) + ClearedBy(After(flag, prio, es[..n]).value, es[n], b)
  }

  /** No bit set by one send is received by two clearing threads: at the end of every run there are at least as many
      sends of a bit as clearing receipts of it, one more if the bit is still set. */
  lemma {:induction false} OneReceiverPerSend(flag: Flag, prio: map<Id, int>, es: seq<Event>, b: nat)
    requires After(flag, prio, es).Some?
    ensures Cleared(flag, prio, es, b) + Set(b, After(flag, prio, es).value.events) <= Sends(es, b)
  {
    if es != [] {
      var n := |es| - 1;
      OneReceiverPerSend(flag, prio, es[..n], b);
      var s := After(flag, prio, es[..n]).value;
      if !es[n].Reset? { StepConserves(flag, s, es[n], b); }
    }
  }
}
