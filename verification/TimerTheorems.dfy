/** What the expiry loop guarantees: which timers fire, in what order, at which ticks, and when
    the ACTIVATED flag tells whether a timer is linked. */
module TimerTheorems {
  import opened StableOrder
  import opened TimerOrder
  import opened TimerSpec
  import opened Arith

  // ---------- which timers one check fires ----------

  /** The timers fired were due, in deadline order with ties first come; a due timer is left out
      only if the function of a fired one names it. */
  lemma {:induction false} CheckFires(s: State)
    requires Good(s)
    ensures var (r, fired) := Check(s);
      Subsequence(fired, DueSeq(s)) && DueSeq(r) == [] &&
      forall x :: x in DueSeq(s) ==>
        x in fired || exists f :: f in fired && f in s.callbacks && Names(s.callbacks[f], x)
    decreases |DueSeq(s)|
  {
    if !Due(s) {
      if s.pending != [] { HeadDue(s); }
    } else {
      FireDue(s);
      var t := s.pending[0];
      var (r, fired) := Check(Fire(s));
      CheckFires(Fire(s));
      SubsequenceTrans(fired, DueSeq(Fire(s)), DueSeq(Popped(s)));
      assert Check(s).1 == [t] + fired;
      assert ([t] + fired)[1..] == fired && DueSeq(s)[1..] == DueSeq(Popped(s));
      forall x | x in DueSeq(s)
        ensures x in [t] + fired || exists f :: f in [t] + fired && f in s.callbacks && Names(s.callbacks[f], x)
      {
        if x != t && x !in fired && !Names(s.callbacks[t], x) {
          assert x in DueSeq(Popped(s)) && x in DueSeq(Fire(s));
          var f :| f in fired && f in s.callbacks && Names(s.callbacks[f], x);
          assert f in [t] + fired;
        }
      }
    }
  }

  lemma {:induction false} FullSubsequence(a: seq<Id>, b: seq<Id>)
    requires Subsequence(a, b) && Distinct(b) && forall x :: x in b ==> x in a
    ensures a == b
    decreases |b|
  {
    assert b != [] ==> b[0] in b && b[0] !in b[1..];
    if a != [] {
      if a[0] == b[0] {
        SubsequenceIn(a[1..], b[1..]);
        assert a == [a[0]] + a[1..];
        forall x | x in b[1..] ensures x in a[1..] { assert x in b; }
        FullSubsequence(a[1..], b[1..]);
        assert b == [b[0]] + b[1..];
      } else {
        SubsequenceIn(a, b[1..]);
      }
    }
  }

  lemma {:induction false} SubsequenceIn(a: seq<Id>, b: seq<Id>)
    requires Subsequence(a, b)
    ensures forall x :: x in a ==> x in b
    decreases |b|
  {
    if a != [] && b != [] {
      if a[0] == b[0] { SubsequenceIn(a[1..], b[1..]); assert a == [a[0]] + a[1..]; }
      else { SubsequenceIn(a, b[1..]); }
    }
  }

  /** If no timer's function names another timer, a check fires exactly the due timers, in order. */
  lemma CheckExact(s: State)
    requires Good(s)
    requires forall f, x :: f in s.callbacks && x in DueSeq(s) && Names(s.callbacks[f], x) ==> f == x
    ensures Check(s).1 == DueSeq(s)
  {
    CheckFires(s);
    SelectSorted(s.pending, DueSet(s), Ranks(s.timeout, s.tick));
    FullSubsequence(Check(s).1, DueSeq(s));
  }

  // ---------- timers nobody touches ----------

  /** No timer in `fired`, other than `t` itself, has a function that names `t`. */
  ghost predicate QuietOthers(s: State, fired: seq<Id>, t: Id) {
    t in s.init && forall f :: f in fired && f in s.callbacks && f != t ==> !Names(s.callbacks[f], t)
  }

  ghost predicate OwnQuiet(s: State, t: Id) {
    t in s.callbacks ==> !Names(s.callbacks[t], t)
  }

  /** What operations on other timers and their timeout functions leave alone. */
  ghost predicate SameFor(s: State, r: State, t: Id) {
    && (t in s.pending <==> t in r.pending) && (t in s.active <==> t in r.active)
    && (t in s.periodic <==> t in r.periodic)
    && t in s.timeout && t in r.timeout && s.timeout[t] == r.timeout[t]
    && t in s.init && t in r.init && s.init[t] == r.init[t]
  }

  lemma DoSame(s: State, op: Op, t: Id)
    requires Good(s) && Proper(op, s.init.Keys) && t in s.init && op.id != t
    ensures SameFor(s, Do(s, op), t)
  {
    StartGood(s, op.id);
    StopGood(s, op.id);
  }

  lemma {:induction false} CallSame(s: State, ops: seq<Op>, t: Id)
    requires Good(s) && Known(ops, s.init.Keys) && t in s.init && !Names(ops, t)
    ensures SameFor(s, Call(s, ops), t)
    decreases |ops|
  {
    if ops != [] {
      NamesTail(ops, t);
      DoSame(s, ops[0], t);
      CallSame(Do(s, ops[0]), ops[1..], t);
    }
  }

  lemma PoppedIn(s: State, t: Id)
    requires Good(s) && s.pending != []
    ensures t in Popped(s).pending <==> t in s.pending && t != s.pending[0]
  {
    assert s.pending == [s.pending[0]] + s.pending[1..];
  }

  lemma FinishSame(c: State, h: Id, t: Id)
    requires Good(c) && h in c.init && t in c.init && h != t
    ensures SameFor(c, Finish(c, h), t)
  {
    StartGood(c.(active := c.active - {h}), h);
  }

  /** A periodic timer of period `p` that has just been restarted, or a one-shot timer that is gone. */
  ghost predicate Renewed(r: State, t: Id, isPeriodic: bool, p: int) {
    && t in r.init && t in r.timeout && (t in r.periodic <==> isPeriodic)
    && if isPeriodic then t in r.pending && t in r.active && Rank(r.tick, r.timeout[t]) == r.init[t] == p
       else t !in r.pending
  }

  lemma FinishSelf(c: State, t: Id)
    requires Good(c) && t in c.init && (t in c.periodic ==> t in c.active) && t !in c.pending
    ensures Renewed(Finish(c, t), t, t in c.periodic, c.init[t])
  {
    StartGood(c.(active := c.active - {t}), t);
  }

  lemma CalledSame(s: State, t: Id)
    requires Good(s) && s.pending != [] && t in s.init && !Names(s.callbacks[s.pending[0]], t)
    ensures SameFor(Popped(s), Called(s), t)
    ensures t in Called(s).pending <==> t in s.pending && t != s.pending[0]
  {
    PoppedIn(s, t);
    CallSame(Popped(s), s.callbacks[s.pending[0]], t);
  }

  lemma FireOther(s: State, t: Id)
    requires Good(s) && Due(s) && t in s.init && !Names(s.callbacks[s.pending[0]], t) && t != s.pending[0]
    ensures SameFor(s, Fire(s), t)
  {
    CalledSame(s, t);
    FinishSame(Called(s), s.pending[0], t);
  }

  /** Firing a timer whose function leaves it alone: a periodic one is restarted, a one-shot one is gone. */
  lemma FireSelf(s: State, t: Id)
    requires Good(s) && Due(s) && t in s.init && !Names(s.callbacks[t], t) && t == s.pending[0]
    requires t in s.periodic ==> t in s.active
    ensures Renewed(Fire(s), t, t in s.periodic, s.init[t])
  {
    CalledSame(s, t);
    FinishSelf(Called(s), t);
  }

  lemma CheckNext(s: State)
    requires Good(s) && Due(s)
    ensures Check(s).0 == Check(Fire(s)).0 && Check(s).1 == [s.pending[0]] + Check(Fire(s)).1
    ensures s.pending[0] in Check(s).1 && forall f :: f in Check(Fire(s)).1 ==> f in Check(s).1
  {
    FireDue(s);
  }

  /** A timer that is not due and that no fired function names is not fired and keeps its place. */
  lemma {:induction false} CheckOther(s: State, t: Id)
    requires Good(s) && QuietOthers(s, Check(s).1, t) && t !in DueSeq(s)
    ensures t !in Check(s).1 && SameFor(s, Check(s).0, t)
    decreases |DueSeq(s)|
  {
    if Due(s) {
      FireDue(s);
      CheckNext(s);
      HeadDueSeq(s);
      FireOther(s, t);
      SubsequenceIn(DueSeq(Fire(s)), DueSeq(Popped(s)));
      CheckOther(Fire(s), t);
    }
  }

  lemma HeadDueSeq(s: State)
    requires Good(s) && Due(s)
    ensures s.pending[0] in DueSeq(s) && forall x :: x in DueSeq(s) <==> x == s.pending[0] || x in DueSeq(Popped(s))
  {
    FireDue(s);
  }

  /** A due timer that no function of another fired one names is fired by the check. */
  lemma {:induction false} CheckFired(s: State, t: Id)
    requires Good(s) && QuietOthers(s, Check(s).1, t) && t in DueSeq(s)
    ensures t in Check(s).1
    decreases |DueSeq(s)|
  {
    HeadDueIn(s, t);
    CheckNext(s);
    if t != s.pending[0] {
      FireDue(s);
      HeadDueSeq(s);
      FireOther(s, t);
      CheckFired(Fire(s), t);
    }
  }

  /** If its own function leaves it alone too, a periodic timer is restarted, and a one-shot timer is gone. */
  lemma {:induction false} CheckSelf(s: State, t: Id)
    requires Good(s) && QuietOthers(s, Check(s).1, t) && OwnQuiet(s, t) && t in DueSeq(s)
    requires t in s.periodic ==> t in s.active
    ensures t in s.init && Renewed(Check(s).0, t, t in s.periodic, s.init[t])
    decreases |DueSeq(s)|
  {
    HeadDueIn(s, t);
    FireDue(s);
    CheckNext(s);
    if t == s.pending[0] {
      FireSelf(s, t);
      FiredOnce(s);
      CheckOther(Fire(s), t);
    } else {
      FireOther(s, t);
      HeadDueSeq(s);
      CheckSelf(Fire(s), t);
    }
  }

  lemma FiredOnce(s: State)
    requires Good(s) && Due(s)
    ensures s.pending[0] !in DueSeq(Fire(s))
  {
    FireDue(s);
    var q := Popped(s);
    SelectIn(q.pending, DueSet(q));
    PoppedIn(s, s.pending[0]);
    SubsequenceIn(DueSeq(Fire(s)), DueSeq(q));
  }

  lemma HeadDueIn(s: State, t: Id)
    requires Good(s) && t in DueSeq(s)
    ensures Due(s)
  {
    SelectIn(s.pending, DueSet(s));
    HeadDue(s);
  }

  // ---------- ticks ----------

  /** Between two ticks no pending timer is due. */
  ghost predicate Settled(s: State) {
    Good(s) && !Due(s)
  }

  ghost function Ticked(s: State): State {
    s.(tick := Add(s.tick, 1))
  }

  lemma RankTick(now: int, d: int)
    requires IsTick(now) && IsTick(d) && Rank(now, d) > 0
    ensures Rank(Add(now, 1), d) == Rank(now, d) - 1
  {
  }

  lemma SettledRanks(s: State)
    requires Settled(s)
    ensures forall x :: x in s.pending ==> x in s.timeout && 0 < Rank(s.tick, s.timeout[x]) < HALF
  {
    if s.pending != [] { HeadDue(s); }
    SelectIn(s.pending, DueSet(s));
    forall x | x in s.pending ensures x in s.timeout && 0 < Rank(s.tick, s.timeout[x]) < HALF {
      var i :| 0 <= i < |s.pending| && s.pending[i] == x;
      assert Ranks(s.timeout, s.tick)[x] == Rank(s.tick, s.timeout[x]);
      RankZero(s.tick, s.timeout[x]);
    }
  }

  /** A tick brings every deadline one closer; none is overdue afterwards. */
  lemma TickGood(s: State)
    requires Settled(s)
    ensures Good(Ticked(s))
    ensures forall x :: x in s.pending ==>
      x in s.timeout && Rank(Add(s.tick, 1), s.timeout[x]) == Rank(s.tick, s.timeout[x]) - 1
  {
    SettledRanks(s);
    forall x | x in s.pending ensures Rank(Add(s.tick, 1), s.timeout[x]) == Rank(s.tick, s.timeout[x]) - 1 {
      RankTick(s.tick, s.timeout[x]);
    }
    var rk, rk' := Ranks(s.timeout, s.tick), Ranks(s.timeout, Add(s.tick, 1));
    var p := s.pending;
    forall i, j | 0 <= i < j < |p| ensures rk'[p[i]] <= rk'[p[j]] {
      assert p[i] in p && p[j] in p;
    }
  }

  /** The clock interrupt, and calls from outside: start, stop and control of a timer. */
  datatype Event = Tick | OpEv(op: Op)

  ghost predicate Allowed(s: State, e: Event) {
    e.OpEv? ==> Proper(e.op, s.init.Keys)
  }

  ghost predicate About(e: Event, t: Id) {
    e.OpEv? && e.op.id == t
  }

  ghost function Next(s: State, e: Event): (State, seq<Id>)
    requires Settled(s) && Allowed(s, e)
  {
    match e
    case Tick => TickGood(s); Check(Ticked(s))
    case OpEv(op) => (Do(s, op), [])
  }

  lemma NextSettled(s: State, e: Event)
    requires Settled(s) && Allowed(s, e)
    ensures Settled(Next(s, e).0)
    ensures Next(s, e).0.init.Keys == s.init.Keys && Next(s, e).0.callbacks == s.callbacks
  {
    match e
    case Tick => TickGood(s);
    case OpEv(op) => DoSettled(s, op);
  }

  lemma NotDue(s: State)
    requires Good(s) && forall x :: x in s.pending ==> x in s.timeout && 0 < Rank(s.tick, s.timeout[x])
    ensures !Due(s)
  {
    if s.pending != [] {
      HeadDue(s);
      assert s.pending[0] in s.pending;
      RankZero(s.tick, s.timeout[s.pending[0]]);
    }
  }

  lemma DoSettled(s: State, op: Op)
    requires Settled(s) && Proper(op, s.init.Keys)
    ensures Settled(Do(s, op))
  {
    StartGood(s, op.id);
    StopGood(s, op.id);
    SettledRanks(s);
    NotDue(Do(s, op));
  }

  /** One event and one pending timer that neither the event nor the function of another timer fired by it names:
      only ticks count its deadline down, and it fires exactly when one tick was left. */
  lemma Countdown(s: State, e: Event, t: Id)
    requires Settled(s) && Allowed(s, e) && QuietOthers(s, Next(s, e).1, t) && t in s.pending && !About(e, t)
    requires t in s.periodic ==> t in s.active
    ensures var (r, fired) := Next(s, e); var k := Rank(s.tick, s.timeout[t]);
      && (e != Tick ==> SameFor(s, r, t) && r.tick == s.tick && fired == [])
      && (e == Tick && k > 1 ==> SameFor(s, r, t) && Rank(r.tick, r.timeout[t]) == k - 1 && t !in fired)
      && (e == Tick && k <= 1 ==> k == 1 && t in fired && t in r.timeout)
      && (e == Tick && k <= 1 && OwnQuiet(s, t) ==> Renewed(r, t, t in s.periodic, s.init[t]))
  {
    SettledRanks(s);
    match e
    case OpEv(op) => DoSame(s, op, t);
    case Tick =>
      TickGood(s);
      var q := Ticked(s);
      SelectIn(q.pending, DueSet(q));
      RankZero(q.tick, q.timeout[t]);
      if t in DueSeq(q) {
        CheckFired(q, t);
        if OwnQuiet(s, t) { CheckSelf(q, t); }
      } else {
        CheckOther(q, t);
      }
  }

  // ---------- runs ----------

  /** Event `e` leads from `s` to `r` and fires the timers `fired`. */
  ghost predicate Stepped(s: State, e: Event, r: State, fired: seq<Id>) {
    Settled(s) && Allowed(s, e) && Next(s, e) == (r, fired)
  }

  /** The events `es` lead through the states `ss`; `fs[i]` are the timers fired by `es[i]`. */
  ghost predicate Run(ss: seq<State>, es: seq<Event>, fs: seq<seq<Id>>) {
    && |ss| == |es| + 1 && |fs| == |es| && Settled(ss[0])
    && forall i, j {:trigger Stepped(ss[i], es[i], ss[j], fs[i])} :: 0 <= i < |es| && j == i + 1 ==>
      Stepped(ss[i], es[i], ss[j], fs[i])
  }

  /** Every run can go on, with any event about timers there are. */
  lemma RunGoesOn(ss: seq<State>, es: seq<Event>, fs: seq<seq<Id>>, e: Event) returns (r: State, fired: seq<Id>)
    requires Run(ss, es, fs) && Allowed(ss[|es|], e)
    ensures Run(ss + [r], es + [e], fs + [fired])
  {
    RunSettled(ss, es, fs, |es|);
    var n := Next(ss[|es|], e);
    r, fired := n.0, n.1;
    forall i, j | 0 <= i < |es| + 1 && j == i + 1
      ensures Stepped((ss + [r])[i], (es + [e])[i], (ss + [r])[j], (fs + [fired])[i])
    {
      if i < |es| { assert Stepped(ss[i], es[i], ss[j], fs[i]); }
    }
  }

  lemma {:induction false} RunSettled(ss: seq<State>, es: seq<Event>, fs: seq<seq<Id>>, n: nat)
    requires Run(ss, es, fs) && n <= |es|
    ensures Settled(ss[n]) && ss[n].init.Keys == ss[0].init.Keys && ss[n].callbacks == ss[0].callbacks
  {
    if n > 0 {
      RunSettled(ss, es, fs, n - 1);
      assert Stepped(ss[n - 1], es[n - 1], ss[n], fs[n - 1]);
      NextSettled(ss[n - 1], es[n - 1]);
    }
  }

  /** Ticks among the first `n` events. */
  ghost function Ticks(es: seq<Event>, n: nat): nat
    requires n <= |es|
  {
    if n == 0 then 0 else Ticks(es, n - 1) + if es[n - 1] == Tick then 1 else 0
  }

  lemma ModStep(m: nat, k: nat)
    requires k > 0
    ensures (m + 1) % k == if m % k + 1 == k then 0 else m % k + 1
  {
    var q, r := m / k, m % k;
    if r + 1 == k { DivUnique(m + 1, q + 1, k, 0); } else { DivUnique(m + 1, q, k, r + 1); }
  }

  /** Timer `t` fires in `k` ticks; just after rt_timer_start `k` is the ticks set for it then. */
  ghost predicate InTicks(s: State, t: Id, k: int) {
    && Settled(s) && t in s.init && t in s.pending && (t in s.periodic ==> t in s.active) && t in s.timeout
    && Rank(s.tick, s.timeout[t]) == k > 0
  }

  /** Up to event `n` no event, and no function of a timer fired other than `t` itself, names `t`. */
  ghost predicate LeftAlone(ss: seq<State>, es: seq<Event>, fs: seq<seq<Id>>, n: nat, t: Id)
    requires |ss| > 0 && n <= |es| && n <= |fs|
  {
    forall i :: 0 <= i < n ==> !About(es[i], t) && QuietOthers(ss[0], fs[i], t)
  }

  /** After rt_timer_start a timer has before it the ticks set last, whatever state it was in. */
  lemma TimeThenStart(s: State, t: Id, k: int)
    requires Settled(s) && t in s.init && 0 < k < HALF
    ensures InTicks(Next(s, OpEv(StartOp(t))).0, t, s.init[t])
    ensures var m := Next(s, OpEv(TimeOp(t, k))).0;
      Settled(m) && t in m.init && InTicks(Next(m, OpEv(StartOp(t))).0, t, k)
  {
    JustStarted(s, t);
    DoSettled(s, TimeOp(t, k));
    JustStarted(Next(s, OpEv(TimeOp(t, k))).0, t);
  }

  lemma JustStarted(s: State, t: Id)
    requires Settled(s) && t in s.init
    ensures InTicks(Next(s, OpEv(StartOp(t))).0, t, s.init[t])
  {
    StartGood(s, t);
    DoSettled(s, StartOp(t));
  }

  /** Setting the ticks of a timer that is linked changes its period, not when it fires next. */
  lemma TimeKeepsDeadline(s: State, t: Id, j: int, k: int)
    requires InTicks(s, t, k) && 0 < j < HALF
    ensures var r := Next(s, OpEv(TimeOp(t, j))).0; InTicks(r, t, k) && r.init[t] == j
  {
    DoSettled(s, TimeOp(t, j));
  }

  /** `left` ticks before it fires, a periodic timer of period `p` is in step. */
  ghost predicate PeriodicPhase(s: State, left: int, p: int, t: Id) {
    && t in s.periodic && t in s.init && t in s.pending && t in s.active && t in s.timeout
    && s.init[t] == p && Rank(s.tick, s.timeout[t]) == left > 0
  }

  /** Ticks a periodic timer has left after event `e`. */
  ghost function LeftAfter(e: Event, left: int, p: int): int {
    if e != Tick then left else if left == 1 then p else left - 1
  }

  lemma PeriodicStep(s: State, e: Event, r: State, fired: seq<Id>, left: int, p: int, t: Id)
    requires Stepped(s, e, r, fired) && PeriodicPhase(s, left, p, t) && !About(e, t) && QuietOthers(s, fired, t)
    ensures t in fired <==> e == Tick && left == 1
    ensures OwnQuiet(s, t) ==> PeriodicPhase(r, LeftAfter(e, left, p), p, t)
  {
    Countdown(s, e, t);
    NextSettled(s, e);
  }

  /** Ticks a periodic timer of period `p` with `k` ticks left has left after the first `n` events. */
  ghost function Left(es: seq<Event>, n: nat, k: int, p: int): int
    requires n <= |es|
  {
    if n == 0 then k else LeftAfter(es[n - 1], Left(es, n - 1, k, p), p)
  }

  lemma {:induction false} LeftIs(es: seq<Event>, n: nat, k: int, p: int)
    requires n <= |es| && k > 0 && p > 0
    ensures var m := Ticks(es, n); Left(es, n, k, p) == if m < k then k - m else p - (m - k) % p
  {
    if n > 0 {
      LeftIs(es, n - 1, k, p);
      var m := Ticks(es, n - 1);
      if m >= k {
        ModStep(m - k, p);
      } else if m + 1 == k {
        DivUnique(0, 0, p, 0);
      }
    }
  }

  lemma PeriodicNext(ss: seq<State>, es: seq<Event>, fs: seq<seq<Id>>, n: nat, t: Id, left: int, p: int)
    requires Run(ss, es, fs) && n < |es| && PeriodicPhase(ss[n], left, p, t)
    requires LeftAlone(ss, es, fs, n + 1, t) && OwnQuiet(ss[0], t)
    ensures t in fs[n] <==> es[n] == Tick && left == 1
    ensures PeriodicPhase(ss[n + 1], LeftAfter(es[n], left, p), p, t)
  {
    RunSettled(ss, es, fs, n);
    assert Stepped(ss[n], es[n], ss[n + 1], fs[n]);
    PeriodicStep(ss[n], es[n], ss[n + 1], fs[n], left, p, t);
  }

  lemma {:induction false} PeriodicPhases(ss: seq<State>, es: seq<Event>, fs: seq<seq<Id>>, n: nat, t: Id, k: int)
    requires Run(ss, es, fs) && InTicks(ss[0], t, k) && t in ss[0].periodic && OwnQuiet(ss[0], t)
    requires n <= |es| && LeftAlone(ss, es, fs, n, t)
    ensures var p := ss[0].init[t]; PeriodicPhase(ss[n], Left(es, n, k, p), p, t)
  {
    if n > 0 {
      var p := ss[0].init[t];
      PeriodicPhases(ss, es, fs, n - 1, t, k);
      PeriodicNext(ss, es, fs, n - 1, t, Left(es, n - 1, k, p), p);
    }
  }

  /** A periodic timer of period p with k ticks before it fires at ticks k, k + p, k + 2p, ..., and at no others, as
      long as no event and no function of a timer fired so far names it. */
  lemma PeriodicFires(ss: seq<State>, es: seq<Event>, fs: seq<seq<Id>>, n: nat, t: Id, k: int)
    requires Run(ss, es, fs) && InTicks(ss[0], t, k) && t in ss[0].periodic && OwnQuiet(ss[0], t)
    requires n < |es| && LeftAlone(ss, es, fs, n + 1, t)
    ensures var p, m := ss[0].init[t], Ticks(es, n + 1);
      p > 0 && (t in fs[n] <==> es[n] == Tick && m >= k && (m - k) % p == 0)
  {
    var p, m := ss[0].init[t], Ticks(es, n);
    PeriodicPhases(ss, es, fs, n, t, k);
    PeriodicNext(ss, es, fs, n, t, Left(es, n, k, p), p);
    LeftIs(es, n, k, p);
    if m >= k {
      ModStep(m - k, p);
    } else if m + 1 == k {
      DivUnique(0, 0, p, 0);
    }
  }

  /** `m` ticks later a one-shot timer of `k` ticks waits or is gone. */
  ghost predicate OneShotPhase(s: State, m: nat, k: int, t: Id) {
    && t !in s.periodic && t in s.timeout && t in s.init
    && if m < k then t in s.pending && Rank(s.tick, s.timeout[t]) == k - m else t !in s.pending
  }

  lemma OneShotStep(s: State, e: Event, r: State, fired: seq<Id>, m: nat, k: int, t: Id)
    requires Stepped(s, e, r, fired) && OneShotPhase(s, m, k, t) && !About(e, t) && QuietOthers(s, fired, t)
    ensures var m' := if e == Tick then m + 1 else m;
      (OwnQuiet(s, t) || m' < k ==> OneShotPhase(r, m', k, t)) && (t in fired <==> e == Tick && m' == k)
  {
    NextSettled(s, e);
    if m < k { Countdown(s, e, t); } else { StaysOff(s, e, t); }
  }

  lemma OneShotNext(ss: seq<State>, es: seq<Event>, fs: seq<seq<Id>>, n: nat, t: Id, m: nat, k: int)
    requires Run(ss, es, fs) && n < |es| && OneShotPhase(ss[n], m, k, t) && LeftAlone(ss, es, fs, n + 1, t)
    ensures var m' := if es[n] == Tick then m + 1 else m;
      && (OwnQuiet(ss[0], t) || m' < k ==> OneShotPhase(ss[n + 1], m', k, t))
      && (t in fs[n] <==> es[n] == Tick && m' == k)
  {
    RunSettled(ss, es, fs, n);
    assert Stepped(ss[n], es[n], ss[n + 1], fs[n]);
    OneShotStep(ss[n], es[n], ss[n + 1], fs[n], m, k, t);
  }

  lemma {:induction false} OneShotPhases(ss: seq<State>, es: seq<Event>, fs: seq<seq<Id>>, n: nat, t: Id, k: int)
    requires Run(ss, es, fs) && InTicks(ss[0], t, k) && t !in ss[0].periodic
    requires n <= |es| && LeftAlone(ss, es, fs, n, t) && (OwnQuiet(ss[0], t) || Ticks(es, n) < k)
    ensures OneShotPhase(ss[n], Ticks(es, n), k, t)
  {
    if n > 0 {
      OneShotPhases(ss, es, fs, n - 1, t, k);
      OneShotNext(ss, es, fs, n - 1, t, Ticks(es, n - 1), k);
    }
  }

  /** A one-shot timer with k ticks before it fires at tick k, whatever its own function does, as long as no event
      and no function of another timer fired so far names it; it never fires again if its own function leaves it
      alone too. */
  lemma OneShotFires(ss: seq<State>, es: seq<Event>, fs: seq<seq<Id>>, n: nat, t: Id, k: int)
    requires Run(ss, es, fs) && InTicks(ss[0], t, k) && t !in ss[0].periodic
    requires n < |es| && LeftAlone(ss, es, fs, n + 1, t) && (OwnQuiet(ss[0], t) || Ticks(es, n) < k)
    ensures t in fs[n] <==> es[n] == Tick && Ticks(es, n + 1) == k
  {
    OneShotPhases(ss, es, fs, n, t, k);
    OneShotNext(ss, es, fs, n, t, Ticks(es, n), k);
  }

  /** A timer that is not pending and that no function of another fired timer names stays so. */
  lemma StaysOff(s: State, e: Event, t: Id)
    requires Settled(s) && Allowed(s, e) && QuietOthers(s, Next(s, e).1, t) && t !in s.pending && !About(e, t)
    ensures SameFor(s, Next(s, e).0, t) && t !in Next(s, e).1
  {
    match e
    case OpEv(op) => DoSame(s, op, t);
    case Tick =>
      TickGood(s);
      SelectIn(s.pending, DueSet(Ticked(s)));
      CheckOther(Ticked(s), t);
  }

  // ---------- what a timeout function leaves behind ----------

  /** The last start or stop of `t` among the operations: a start with the ticks set by then. */
  datatype Last = Neither | Started(ticks: int) | Stopped

  /** The ticks of `t` after one operation, and whether it is periodic then. */
  function TicksOf(op: Op, t: Id, k: int): int {
    if op.TimeOp? && op.id == t then op.ticks else k
  }

  predicate KindOf(op: Op, t: Id, isPeriodic: bool) {
    if op.KindOp? && op.id == t then op.isPeriodic else isPeriodic
  }

  function TicksAfter(ops: seq<Op>, t: Id, k: int): int {
    if ops == [] then k else TicksAfter(ops[1..], t, TicksOf(ops[0], t, k))
  }

  predicate KindAfter(ops: seq<Op>, t: Id, isPeriodic: bool) {
    if ops == [] then isPeriodic else KindAfter(ops[1..], t, KindOf(ops[0], t, isPeriodic))
  }

  /** `k` are the ticks of `t` beforehand. */
  function LastOp(ops: seq<Op>, t: Id, k: int): Last {
    if ops == [] then Neither
    else
      var last := LastOp(ops[1..], t, TicksOf(ops[0], t, k));
      if last != Neither || ops[0].id != t then last
      else if ops[0].StartOp? then Started(k)
      else if ops[0].StopOp? then Stopped
      else Neither
  }

  /** Where operations leave a timer whose flag is set if it is pending. */
  ghost predicate LeftSo(s: State, r: State, ops: seq<Op>, t: Id)
    requires t in s.init
  {
    && t in r.init && r.init[t] == TicksAfter(ops, t, s.init[t])
    && (t in r.periodic <==> KindAfter(ops, t, t in s.periodic))
    && (t in r.pending ==> t in r.active)
    && match LastOp(ops, t, s.init[t])
       case Neither =>
         && (t in r.pending <==> t in s.pending) && (t in r.active <==> t in s.active)
         && t in r.timeout && t in s.timeout && r.timeout[t] == s.timeout[t]
       case Started(k) => t in r.pending && t in r.timeout && Rank(r.tick, r.timeout[t]) == k
       case Stopped => t !in r.pending && t !in r.active
  }

  /** The last operations on `t` decide whether it is linked, with which deadline, and its ticks and kind. */
  lemma {:induction false} CallLast(s: State, ops: seq<Op>, t: Id)
    requires Good(s) && Known(ops, s.init.Keys) && t in s.init && (t in s.pending ==> t in s.active)
    ensures LeftSo(s, Call(s, ops), ops, t)
    decreases |ops|
  {
    if ops != [] {
      DoLast(s, ops[0], t);
      CallLast(Do(s, ops[0]), ops[1..], t);
      LastChain(s, Do(s, ops[0]), Call(s, ops), ops, t);
    }
  }

  /** What one operation does to a timer. */
  ghost predicate DoneTo(s: State, m: State, op: Op, t: Id) {
    && t in s.init && t in m.init && t in m.timeout && t in s.timeout && (t in m.pending ==> t in m.active)
    && m.init[t] == TicksOf(op, t, s.init[t]) && (t in m.periodic <==> KindOf(op, t, t in s.periodic))
    && (op == StartOp(t) ==> t in m.pending && Rank(m.tick, m.timeout[t]) == s.init[t])
    && (op == StopOp(t) ==> t !in m.pending && t !in m.active)
    && (op != StartOp(t) && op != StopOp(t) ==>
          && (t in m.pending <==> t in s.pending) && (t in m.active <==> t in s.active)
          && m.timeout[t] == s.timeout[t])
  }

  lemma DoLast(s: State, op: Op, t: Id)
    requires Good(s) && Proper(op, s.init.Keys) && t in s.init && (t in s.pending ==> t in s.active)
    ensures DoneTo(s, Do(s, op), op, t)
  {
    StartGood(s, op.id);
    StopGood(s, op.id);
  }

  lemma LastChain(s: State, m: State, r: State, ops: seq<Op>, t: Id)
    requires ops != [] && DoneTo(s, m, ops[0], t) && LeftSo(m, r, ops[1..], t) && m.tick == r.tick
    ensures LeftSo(s, r, ops, t)
  {
  }

  /** The ticks a timer has before it after its round, if it is linked: its own function ran `ops`, it had `k` ticks
      and was periodic or not. */
  function Again(ops: seq<Op>, t: Id, k: int, isPeriodic: bool): Last {
    if LastOp(ops, t, k) == Stopped then Stopped
    else if KindAfter(ops, t, isPeriodic) then Started(TicksAfter(ops, t, k))
    else if LastOp(ops, t, k).Started? then LastOp(ops, t, k)
    else Stopped
  }

  /** Linked again, or not, as `last` says. */
  ghost predicate LinkedAs(r: State, t: Id, last: Last) {
    match last
    case Started(k) => t in r.pending && t in r.timeout && Rank(r.tick, r.timeout[t]) == k
    case _ => t !in r.pending
  }

  /** Whatever its own function does to it, a timer fired is linked again exactly when `Again` says so, with the ticks
      it says, and has the ticks and the kind set last. */
  lemma FiredAgain(s: State)
    requires Good(s) && Due(s) && s.pending[0] in s.active
    ensures var t, r := s.pending[0], Fire(s);
      && t in s.init && t in r.init && r.init[t] == TicksAfter(s.callbacks[t], t, s.init[t])
      && (t in r.periodic <==> KindAfter(s.callbacks[t], t, t in s.periodic))
      && LinkedAs(r, t, Again(s.callbacks[t], t, s.init[t], t in s.periodic))
  {
    var t := s.pending[0];
    PoppedIn(s, t);
    CallLast(Popped(s), s.callbacks[t], t);
    FinishAgain(Popped(s), Called(s), s.callbacks[t], t);
  }

  lemma FinishAgain(q: State, c: State, ops: seq<Op>, t: Id)
    requires Good(c) && t in q.init && t in q.active && t !in q.pending && LeftSo(q, c, ops, t)
    ensures t in c.init && LinkedAs(Finish(c, t), t, Again(ops, t, q.init[t], t in q.periodic))
    ensures Finish(c, t).init == c.init && Finish(c, t).periodic == c.periodic
  {
    StartGood(c.(active := c.active - {t}), t);
  }

  /** A timer started by the function of another one has all its ticks before it at the end of the check, unless
      the function of a timer fired later names it: PeriodicFires and OneShotFires hold for it from there on. */
  lemma StartedByFunction(s: State, t: Id)
    requires Good(s) && Due(s) && t in s.init && t != s.pending[0] && (t in s.pending ==> t in s.active)
    requires LastOp(s.callbacks[s.pending[0]], t, s.init[t]).Started? && QuietOthers(s, Check(Fire(s)).1, t)
    ensures InTicks(Check(s).0, t, LastOp(s.callbacks[s.pending[0]], t, s.init[t]).ticks)
  {
    var h := s.pending[0];
    PoppedIn(s, t);
    CallLast(Popped(s), s.callbacks[h], t);
    LastTicks(s.callbacks[h], t, s.init[t], s.init.Keys);
    FinishSame(Called(s), h, t);
    NotYetDue(Fire(s), t);
    CheckNext(s);
    CheckOther(Fire(s), t);
  }

  lemma NotYetDue(r: State, t: Id)
    requires Good(r) && t in r.timeout && Rank(r.tick, r.timeout[t]) > 0
    ensures t !in DueSeq(r)
  {
    SelectIn(r.pending, DueSet(r));
    RankZero(r.tick, r.timeout[t]);
  }

  lemma {:induction false} LastTicks(ops: seq<Op>, t: Id, k: int, ids: set<Id>)
    requires Known(ops, ids) && 0 < k < HALF
    ensures LastOp(ops, t, k).Started? ==> 0 < LastOp(ops, t, k).ticks < HALF
  {
    if ops != [] {
      assert Proper(ops[0], ids);
      LastTicks(ops[1..], t, TicksOf(ops[0], t, k), ids);
    }
  }

  // ---------- the ACTIVATED flag ----------

  /** The flag says of every timer other than `but` whether it is linked. */
  ghost predicate FlagsRight(s: State, but: set<Id>) {
    forall x :: x !in but ==> (x in s.active <==> x in s.pending)
  }

  /** A function called while its own timer is unlinked with the flag still set. */
  lemma {:induction false} CallFlags(s: State, ops: seq<Op>, t: Id)
    requires Good(s) && Known(ops, s.init.Keys) && FlagsRight(s, {t}) && (t in s.pending ==> t in s.active)
    ensures var r := Call(s, ops); FlagsRight(r, {t}) && (t in r.pending ==> t in r.active)
    decreases |ops|
  {
    if ops != [] {
      var m := Do(s, ops[0]);
      StartGood(s, ops[0].id);
      StopGood(s, ops[0].id);
      CallFlags(m, ops[1..], t);
    }
  }

  /** The function `ops` leaves its own timer one-shot and started. */
  ghost predicate RestartsItself(s: State, t: Id)
    requires t in s.callbacks && t in s.init
  {
    !KindAfter(s.callbacks[t], t, t in s.periodic) && LastOp(s.callbacks[t], t, s.init[t]).Started?
  }

  /** Firing keeps the flag right except exactly for a timer that its own function leaves one-shot and does not stop
      after starting it again: then the flag is cleared although the timer is linked and will fire. */
  lemma FireFlagsIff(s: State)
    requires Good(s) && Due(s) && FlagsRight(s, {})
    ensures FirstThere(s) && (FlagsRight(Fire(s), {}) <==> !RestartsItself(s, s.pending[0]))
  {
    var t := s.pending[0];
    PoppedFlags(s);
    CallFlags(Popped(s), s.callbacks[t], t);
    CallLast(Popped(s), s.callbacks[t], t);
    FinishFlags(Called(s), t);
  }

  ghost predicate FirstThere(s: State) {
    s.pending != [] && s.pending[0] in s.callbacks && s.pending[0] in s.init
  }

  /** Then rt_timer_stop refuses, and the timer fires all the same, when its ticks have passed. */
  lemma RefusedButFires(s: State)
    requires Good(s) && Due(s) && FlagsRight(s, {}) && FirstThere(s) && RestartsItself(s, s.pending[0])
    ensures var t, r := s.pending[0], Fire(s); var k := LastOp(s.callbacks[t], t, s.init[t]).ticks;
      && t in r.pending && Stop(r, t) == r && t in r.timeout && Rank(r.tick, r.timeout[t]) == k
      && (QuietOthers(s, Check(r).1, t) ==> InTicks(Check(s).0, t, k))
  {
    var t, r := s.pending[0], Fire(s);
    PoppedFlags(s);
    CallLast(Popped(s), s.callbacks[t], t);
    LastTicks(s.callbacks[t], t, s.init[t], s.init.Keys);
    if QuietOthers(s, Check(r).1, t) {
      NotYetDue(r, t);
      CheckNext(s);
      CheckOther(r, t);
    }
  }

  /** Timer 1, due now, is the only one: of 10 ticks, one-shot, with a function that starts it again. */
  const SELF_STARTER := State(5, [1], map[1 := 5], map[1 := 10], {1}, {}, map[1 := [StartOp(1)]])

  /** Its check fires it and leaves it linked with the flag cleared: every later attempt to stop it is refused. */
  lemma SelfRestart()
    ensures Good(SELF_STARTER) && Due(SELF_STARTER) && FlagsRight(SELF_STARTER, {})
    ensures !FlagsRight(Fire(SELF_STARTER), {})
    ensures SelfStarted(Check(SELF_STARTER).0)
  {
    assert SELF_STARTER.callbacks[1][1..] == [];
    OnlySelfStarter(SELF_STARTER);
  }

  lemma OnlySelfStarter(s: State)
    requires Good(s) && Due(s) && FlagsRight(s, {}) && FirstThere(s) && s.pending[0] == 1 && s.init.Keys == {1}
    requires LastOp(s.callbacks[1], 1, s.init[1]) == Started(10) && !KindAfter(s.callbacks[1], 1, 1 in s.periodic)
    ensures !FlagsRight(Fire(s), {}) && SelfStarted(Check(s).0)
  {
    FireFlagsIff(s);
    SelfFired(s);
    OnlyOne(Fire(s));
    CheckNext(s);
  }

  lemma SelfFired(s: State)
    requires Good(s) && Due(s) && FlagsRight(s, {}) && FirstThere(s) && s.pending[0] == 1
    requires LastOp(s.callbacks[1], 1, s.init[1]) == Started(10) && !KindAfter(s.callbacks[1], 1, 1 in s.periodic)
    ensures var r := Fire(s);
      && 1 in r.pending && 1 !in r.active && 1 !in r.periodic && 1 in r.timeout && 1 in r.init
      && Rank(r.tick, r.timeout[1]) == 10 && Stop(r, 1) == r
  {
    RefusedButFires(s);
    StopIdle(Fire(s), 1);
    FiredKind(s, 1);
  }

  lemma FiredKind(s: State, t: Id)
    requires Good(s) && Due(s) && FlagsRight(s, {}) && FirstThere(s) && s.pending[0] == t
    ensures t in Fire(s).init && (t in Fire(s).periodic <==> KindAfter(s.callbacks[t], t, t in s.periodic))
  {
    FiredAgain(s);
  }

  lemma StopIdle(r: State, t: Id)
    requires Stop(r, t) == r
    ensures t !in r.active
  {
  }

  ghost predicate SelfStarted(s: State) {
    InTicks(s, 1, 10) && s.init.Keys == {1} && 1 !in s.periodic && 1 !in s.active && Stop(s, 1) == s
  }

  /** Where timer 1 is the only one and not due, a check does nothing. */
  lemma OnlyOne(s: State)
    requires Good(s) && s.init.Keys == {1} && 1 in s.pending && Rank(s.tick, s.timeout[1]) > 0
    ensures !Due(s) && Check(s) == (s, []) && QuietOthers(s, [], 1)
  {
    assert s.pending[0] in s.pending;
    HeadDue(s);
    RankZero(s.tick, s.timeout[1]);
  }

  /** It fires again at the tenth tick all the same. */
  lemma SelfRestartFires(ss: seq<State>, es: seq<Event>, fs: seq<seq<Id>>)
    requires Run(ss, es, fs) && SelfStarted(ss[0]) && |es| == 10 && forall i :: 0 <= i < 10 ==> es[i] == Tick
    ensures 1 in fs[9]
  {
    TicksAll(es, 10);
    TicksAll(es, 9);
    OneShotFires(ss, es, fs, 9, 1, 10);
  }

  lemma {:induction false} TicksAll(es: seq<Event>, n: nat)
    requires n <= |es| && forall i :: 0 <= i < n ==> es[i] == Tick
    ensures Ticks(es, n) == n
  {
    if n > 0 { TicksAll(es, n - 1); }
  }

  lemma FinishFlags(c: State, t: Id)
    requires Good(c) && t in c.init && FlagsRight(c, {t}) && (t in c.pending ==> t in c.active)
    ensures FlagsRight(Finish(c, t), {}) <==> !(t !in c.periodic && t in c.pending)
  {
    StartGood(c.(active := c.active - {t}), t);
  }

  lemma PoppedFlags(s: State)
    requires Good(s) && s.pending != [] && FlagsRight(s, {})
    ensures FlagsRight(Popped(s), {s.pending[0]}) && s.pending[0] !in Popped(s).pending
  {
    forall x ensures x in Popped(s).pending <==> x in s.pending && x != s.pending[0] { PoppedIn(s, x); }
  }
}
