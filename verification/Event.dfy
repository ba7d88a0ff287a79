/** rt_event as an object: its methods do what the steps of EventSpec say. */
module Event {
  import opened StableOrder
  import opened WaitQueue
  import opened E = EventSpec
  import T = EventTheorems

  datatype RecvResult = Got(bits: Bits) | Invalid | TimedOut | Waits

  class Event {
    const flag: Flag
    var prio: map<Id, int>     // priorities of the threads
    var events: Bits           // event->set
    var suspended: seq<Id>     // the thread list of the IPC object
    var wants: map<Id, Want>   // event_set and event_info of the waiting threads

    ghost function Abs(): E.State
      reads this
    {
      E.State(events, suspended, wants, prio)
    }

    ghost predicate Valid()
      reads this
    {
      Inv(Abs())
    }

    /** rt_event_init */
    constructor (f: Flag, threads: map<Id, int>)
      ensures Valid() && events == {} && suspended == [] && flag == f && prio == threads
    {
      flag, prio, events, suspended, wants := f, threads, {}, [], map[];
    }

    /** rt_event_send: sets bits and resumes, in list order, the threads whose condition then holds. */
    method Send(bits: Bits) returns (ok: bool, woken: seq<(Id, Bits)>)
      requires Valid()
      modifies this
      ensures Valid() && ok == (bits != {})
      ensures Abs().(wants := old(wants)) == Step(flag, old(Abs()), E.Send(bits))
      ensures SameWants(suspended, wants, old(wants))
      ensures woken == if ok then ScanList(old(suspended), old(wants), old(events) + bits).woken else []
      ensures T.Known(woken, old(wants))
      ensures ok ==> forall b ::
        T.Clearings(woken, old(wants), b) + T.Set(b, events) == T.Set(b, old(events) + bits)
    {
      if bits == {} {
        return false, [];
      }
      ok := true;
      SendInv(Abs(), events + bits);
      forall b
        ensures var s := ScanList(suspended, wants, events + bits);
          T.Known(s.woken, wants) && T.Clearings(s.woken, wants, b) + T.Set(b, s.left) == T.Set(b, events + bits)
      {
        T.BitsConserved(suspended, wants, events + bits, b);
      }
      T.WokenKnown(suspended, wants, events + bits);
      events := events + bits;
      woken := WakeAll();
    }

    /** The scan of rt_event_send over the list. */
    method WakeAll() returns (woken: seq<(Id, Bits)>)
      requires Distinct(suspended) && forall i :: 0 <= i < |suspended| ==> suspended[i] in wants
      modifies `events, `suspended, `wants
      ensures Scan(events, suspended, woken) == ScanList(old(suspended), old(wants), old(events))
      ensures SameWants(suspended, wants, old(wants))
    {
      ghost var q, wants0, events0, n := suspended, wants, events, 0;
      woken := [];
      var i := 0;
      assert q[..0] == [] && suspended[..0] == [] && q[0..] == q;
      while i < |suspended|
        invariant 0 <= n <= |q| && 0 <= i <= |suspended| && suspended[i..] == q[n..]
        invariant ScanList(q[..n], wants0, events0) == Scan(events, suspended[..i], woken)
        invariant Distinct(suspended) && SameWants(suspended, wants, wants0)
        decreases |suspended| - i
      {
        var t := suspended[i];
        Advance(q, n, suspended, i);
        WokenAsReceived(q, wants0, events0, n);
        WakeIsReceive(wants[t], events);
        var r := WakeOne(wants[t], events);
        if r.Received? {
          RemoveSplit(suspended, i);
          StillSame(suspended, wants, wants0, i, r.bits);
          wants := wants[t := wants[t].(bits := r.bits)];
          events := r.left;
          woken := woken + [(t, r.bits)];
          suspended := suspended[..i] + suspended[i + 1..];
        } else {
          i := i + 1;
        }
        n := n + 1;
      }
      WholeSeq(q, n);
      WholeSeq(suspended, i);
    }

    /** rt_event_recv by thread `t` up to a suspension, waiting unless the time is 0. */
    method Recv(t: Id, want: Want, wait: bool) returns (r: RecvResult)
      requires Valid() && t in prio && t !in suspended
      modifies this
      ensures Valid() && Abs() == Step(flag, old(Abs()), E.Recv(t, want, wait))
      ensures if want.bits == {} then r == Invalid
        else match ReceiveNow(want, old(events))
             case Received(got, left) => r == Got(got)
             case NotYet => r == if wait then Waits else TimedOut
      ensures want.bits != {} ==> (r.Got? <==> T.Met(want, old(events)))
      ensures if r.Got? then T.Receives(want, old(events), r.bits) && T.Leaves(want, old(events), events)
        else events == old(events)
      ensures r == Waits <==> t in suspended
    {
      StepInv(flag, Abs(), E.Recv(t, want, wait));
      T.MetIff(want, events);
      if want.bits != {} { T.RecvExact(flag, Abs(), t, want, wait); }
      if want.bits == {} {
        return Invalid;
      }
      var ok := false;
      if want.all {
        ok := events * want.bits == want.bits;
      } else {
        ok := events * want.bits != {};
      }
      if ok {
        r := Got(events * want.bits);
        if want.clear {
          events := events - want.bits;
        }
      } else if !wait {
        r := TimedOut;
      } else {
        wants := wants[t := want];
        suspended := Suspend(flag, suspended, t, prio);
        r := Waits;
      }
    }

    /** rt_thread_timeout of a waiting thread. */
    method Expire(t: Id)
      requires Valid() && t in suspended
      modifies this
      ensures Valid() && Abs() == Step(flag, old(Abs()), E.Expire(t))
      ensures t !in suspended && events == old(events) && forall x :: x in suspended <==> x in old(suspended) && x != t
    {
      WithoutIn(suspended, t);
      StepInv(flag, Abs(), E.Expire(t));
      suspended := Unlink(suspended, t);
    }

    /** A change of the priority of a thread, waiting or not; its place in the list stays. */
    method SetPriority(t: Id, p: int)
      requires Valid() && t in prio
      modifies this
      ensures Valid() && Abs() == Step(flag, old(Abs()), E.SetPriority(t, p))
    {
      prio := prio[t := p];
    }

    /** rt_event_control, RT_IPC_CMD_RESET */
    method Reset()
      requires Valid()
      modifies this
      ensures Valid() && Abs() == Step(flag, old(Abs()), E.Reset)
      ensures events == {} && suspended == []
    {
      while suspended != []
        modifies `suspended
      {
        suspended := suspended[1..];
      }
      events := {};
    }
  }

  /** The waits of the threads in `s` are the same. */
  ghost predicate SameWants(s: seq<Id>, wants: map<Id, Want>, wants0: map<Id, Want>) {
    forall k :: 0 <= k < |s| ==> s[k] in wants && s[k] in wants0 && wants[s[k]] == wants0[s[k]]
  }

  lemma StillSame(s: seq<Id>, wants: map<Id, Want>, wants0: map<Id, Want>, i: nat, bits: Bits)
    requires i < |s| && Distinct(s) && SameWants(s, wants, wants0)
    ensures SameWants(s[..i] + s[i + 1..], wants[s[i] := wants[s[i]].(bits := bits)], wants0)
  {
  }

  /** One step of the scan: the rest of the list after its element `i` stays or goes. */
  lemma Advance(q: seq<Id>, n: nat, s: seq<Id>, i: nat)
    requires n <= |q| && i < |s| && s[i..] == q[n..]
    ensures n < |q| && s[i] == q[n]
    ensures (s[..i] + s[i + 1..])[..i] == s[..i] && (s[..i] + s[i + 1..])[i..] == q[n + 1..]
    ensures s[..i + 1] == s[..i] + [q[n]] && s[i + 1..] == q[n + 1..]
  {
    assert s[i] == s[i..][0] == q[n..][0];
    assert s[i + 1..] == s[i..][1..] == q[n..][1..] == q[n + 1..];
  }

  lemma WholeSeq(s: seq<Id>, n: nat)
    requires n <= |s| && s[n..] == []
    ensures s[..n] == s
  {
  }

  lemma RemoveSplit(s: seq<Id>, i: nat)
    requires i < |s| && Distinct(s)
    ensures Distinct(s[..i] + s[i + 1..])
  {
  }
}
