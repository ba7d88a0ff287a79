/** Kernel timers seen through the bottom row of their skip list: what start, stop and the
    expiry loop do, and when a timer fires. */
module TimerSpec {
  import opened StableOrder
  import opened TimerOrder

  /** What a timeout function, or anybody else, does to a timer: rt_timer_start, rt_timer_stop, and rt_timer_control
      with the commands that set the ticks and the kind. */
  datatype Op =
    | StartOp(id: Id)
    | StopOp(id: Id)
    | TimeOp(id: Id, ticks: int)
    | KindOp(id: Id, isPeriodic: bool)

  /** `pending` is the bottom row; `callbacks` are the timeout functions. */
  datatype State = State(
    tick: int,
    pending: seq<Id>,
    timeout: map<Id, int>,
    init: map<Id, int>,
    active: set<Id>,
    periodic: set<Id>,
    callbacks: map<Id, seq<Op>>)

  /** Ticks left to every deadline. */
  ghost function Ranks(dl: map<Id, int>, now: int): map<Id, int> {
    map x | x in dl :: Rank(now, dl[x])
  }

  /** Timers exist with their fields; init ticks are non-zero and pass the check of rt_timer_start. */
  ghost predicate Fields(s: State) {
    && IsTick(s.tick)
    && s.init.Keys == s.timeout.Keys == s.callbacks.Keys
    && s.active <= s.init.Keys && s.periodic <= s.init.Keys
    && (forall x :: x in s.init ==> 0 < s.init[x] < HALF)
    && (forall x :: x in s.timeout ==> IsTick(s.timeout[x]))
    && (forall x :: x in s.callbacks ==> Known(s.callbacks[x], s.init.Keys))
  }

  /** The operation is about one of the timers, and sets ticks that pass the check of rt_timer_start. */
  ghost predicate Proper(op: Op, ids: set<Id>) {
    op.id in ids && (op.TimeOp? ==> 0 < op.ticks < HALF)
  }

  ghost predicate Known(ops: seq<Op>, ids: set<Id>) {
    forall i :: 0 <= i < |ops| ==> Proper(ops[i], ids)
  }

  ghost predicate Names(ops: seq<Op>, t: Id) {
    exists i :: 0 <= i < |ops| && ops[i].id == t
  }

  lemma NamesTail(ops: seq<Op>, t: Id)
    ensures Names(ops, t) <==> ops != [] && (ops[0].id == t || Names(ops[1..], t))
  {
    if ops != [] && Names(ops[1..], t) {
      var i :| 0 <= i < |ops[1..]| && ops[1..][i].id == t;
      assert ops[i + 1].id == t;
    }
  }

  /** The pending row is in deadline order and nothing in it is overdue. */
  ghost predicate InOrder(p: seq<Id>, rk: map<Id, int>) {
    Distinct(p) && Sorted(p, rk) && forall x :: x in p ==> rk[x] < HALF
  }

  ghost predicate Good(s: State) {
    Fields(s) && InOrder(s.pending, Ranks(s.timeout, s.tick))
  }

  function Add(x: int, y: int): int {
    (x + y) % TICKS
  }

  // ---------- start and stop ----------

  ghost function NewTimeout(s: State, t: Id): map<Id, int>
    requires t in s.init
  {
    s.timeout[t := Add(s.tick, s.init[t])]
  }

  /** rt_timer_start */
  ghost function Start(s: State, t: Id): State
    requires Good(s) && t in s.init
  {
    var dl := NewTimeout(s, t);
    WithoutIn(s.pending, t);
    s.(timeout := dl, active := s.active + {t},
       pending := StableInsert(Without(s.pending, t), t, Ranks(dl, s.tick)))
  }

  /** rt_timer_stop when the timer is activated; otherwise it only reports -RT_ERROR. */
  ghost function Stop(s: State, t: Id): State {
    if t in s.active then s.(active := s.active - {t}, pending := Without(s.pending, t)) else s
  }

  /** rt_timer_control: only the field changes, also of a timer that is linked. */
  ghost function SetTime(s: State, t: Id, ticks: int): State {
    s.(init := s.init[t := ticks])
  }

  ghost function SetKind(s: State, t: Id, isPeriodic: bool): State {
    s.(periodic := if isPeriodic then s.periodic + {t} else s.periodic - {t})
  }

  lemma ControlGood(s: State, op: Op)
    requires Good(s) && Proper(op, s.init.Keys)
    ensures op.TimeOp? ==> Good(SetTime(s, op.id, op.ticks)) && SetTime(s, op.id, op.ticks).init.Keys == s.init.Keys
    ensures op.KindOp? ==> Good(SetKind(s, op.id, op.isPeriodic))
  {
    if op.TimeOp? { assert SetTime(s, op.id, op.ticks).init.Keys == s.init.Keys; }
  }

  lemma NewRank(now: int, k: int)
    requires IsTick(now) && 0 < k < HALF
    ensures Rank(now, Add(now, k)) == k && IsTick(Add(now, k))
  {
  }

  lemma SortedAgree(s: seq<Id>, rk: map<Id, int>, rk': map<Id, int>)
    requires InOrder(s, rk) && forall x :: x in s ==> x in rk' && rk'[x] == rk[x]
    ensures InOrder(s, rk')
  {
  }

  lemma WithoutInOrder(p: seq<Id>, t: Id, rk: map<Id, int>)
    requires InOrder(p, rk)
    ensures InOrder(Without(p, t), rk)
  {
    WithoutIn(p, t);
    WithoutSorted(p, t, rk);
  }

  lemma InsertInOrder(p: seq<Id>, t: Id, rk: map<Id, int>)
    requires InOrder(p, rk) && t !in p && t in rk && rk[t] < HALF
    ensures InOrder(StableInsert(p, t, rk), rk)
    ensures forall x :: x in StableInsert(p, t, rk) <==> x == t || x in p
  {
    InsertSorted(p, t, rk);
    InsertDistinct(p, t, rk);
  }

  lemma StartGood(s: State, t: Id)
    requires Good(s) && t in s.init
    ensures Good(Start(s, t))
    ensures forall x :: x in Start(s, t).pending <==> x == t || x in s.pending
    ensures Rank(s.tick, Start(s, t).timeout[t]) == s.init[t]
  {
    var rk, rk' := Ranks(s.timeout, s.tick), Ranks(NewTimeout(s, t), s.tick);
    NewRank(s.tick, s.init[t]);
    WithoutIn(s.pending, t);
    WithoutInOrder(s.pending, t, rk);
    SortedAgree(Without(s.pending, t), rk, rk');
    InsertInOrder(Without(s.pending, t), t, rk');
  }

  lemma StopGood(s: State, t: Id)
    requires Good(s)
    ensures Good(Stop(s, t))
    ensures forall x :: x in Stop(s, t).pending <==> x in s.pending && !(x == t && t in s.active)
  {
    WithoutIn(s.pending, t);
    WithoutInOrder(s.pending, t, Ranks(s.timeout, s.tick));
  }

  ghost predicate SameTimers(s: State, r: State) {
    r.tick == s.tick && r.init.Keys == s.init.Keys && r.callbacks == s.callbacks
  }

  ghost function Do(s: State, op: Op): (r: State)
    requires Good(s) && Proper(op, s.init.Keys)
    ensures Good(r) && SameTimers(s, r)
  {
    StartGood(s, op.id);
    StopGood(s, op.id);
    ControlGood(s, op);
    match op
    case StartOp(t) => Start(s, t)
    case StopOp(t) => Stop(s, t)
    case TimeOp(t, ticks) => SetTime(s, t, ticks)
    case KindOp(t, isPeriodic) => SetKind(s, t, isPeriodic)
  }

  /** A timeout function, operation by operation. */
  ghost function Call(s: State, ops: seq<Op>): (r: State)
    requires Good(s) && Known(ops, s.init.Keys)
    ensures Good(r) && SameTimers(s, r)
    decreases |ops|
  {
    if ops == [] then s else Call(Do(s, ops[0]), ops[1..])
  }

  // ---------- the expiry loop ----------

  /** The test on the first pending timer in rt_timer_check. */
  ghost predicate Due(s: State)
    requires Good(s)
  {
    s.pending != [] && Sub(s.tick, s.timeout[s.pending[0]]) < HALF
  }

  /** Pending timers whose deadline is now. */
  ghost function DueSet(s: State): set<Id> {
    set x | x in s.timeout && s.timeout[x] == s.tick
  }

  ghost function DueSeq(s: State): seq<Id> {
    Select(s.pending, DueSet(s))
  }

  ghost function Popped(s: State): (r: State)
    requires Good(s) && s.pending != []
    ensures Good(r)
  {
    var p := s.pending[1..];
    assert forall i :: 0 <= i < |p| ==> p[i] == s.pending[i + 1];
    s.(pending := p)
  }

  /** The first timer unlinked and its function called. */
  ghost function Called(s: State): (r: State)
    requires Good(s) && s.pending != []
    ensures Good(r) && SameTimers(s, r)
  {
    Call(Popped(s), s.callbacks[s.pending[0]])
  }

  /** After the call a periodic timer still activated is restarted; any other is deactivated. */
  ghost function Finish(c: State, t: Id): (r: State)
    requires Good(c) && t in c.init
    ensures Good(r) && SameTimers(c, r)
  {
    var d := c.(active := c.active - {t});
    if t in c.periodic && t in c.active then StartGood(d, t); Start(d, t) else d
  }

  /** One round of the loop. */
  ghost function Fire(s: State): (r: State)
    requires Good(s) && Due(s)
    ensures Good(r) && SameTimers(s, r)
  {
    Finish(Called(s), s.pending[0])
  }

  /** rt_timer_check: the state it leaves and the timers whose functions it called, in order. */
  ghost function Check(s: State): (r: (State, seq<Id>))
    requires Good(s)
    ensures Good(r.0) && !Due(r.0) && SameTimers(s, r.0)
    decreases |DueSeq(s)|
  {
    if !Due(s) then (s, [])
    else
      FireDue(s);
      var (r, fired) := Check(Fire(s));
      (r, [s.pending[0]] + fired)
  }

  lemma {:induction false} SelectInsertOther(s: seq<Id>, keep: set<Id>, t: Id, rk: map<Id, int>)
    requires t in rk && (forall x :: x in s ==> x in rk) && t !in keep
    ensures Select(StableInsert(s, t, rk), keep) == Select(s, keep)
  {
    var r := StableInsert(s, t, rk);
    if s == [] || rk[t] < rk[s[0]] {
      assert r[1..] == s;
    } else {
      assert r[1..] == StableInsert(s[1..], t, rk);
      SelectInsertOther(s[1..], keep, t, rk);
    }
  }

  lemma {:induction false} SelectNone(s: seq<Id>, keep: set<Id>)
    requires forall x :: x in s ==> x !in keep
    ensures Select(s, keep) == []
  {
    if s != [] {
      assert s == [s[0]] + s[1..];
      SelectNone(s[1..], keep);
    }
  }

  lemma NewDueSet(s: State, t: Id)
    requires Good(s) && t in s.init
    ensures DueSet(Start(s, t)) == DueSet(s) - {t}
  {
    NewRank(s.tick, s.init[t]);
    RankZero(s.tick, NewTimeout(s, t)[t]);
  }

  /** Starting or stopping a timer takes it off the due timers; the others stay due in order. */
  lemma StartDue(s: State, t: Id)
    requires Good(s) && t in s.init
    ensures DueSeq(Start(s, t)) == Without(DueSeq(s), t)
  {
    var w, keep := Without(s.pending, t), DueSet(s) - {t};
    NewDueSet(s, t);
    WithoutIn(s.pending, t);
    SelectInsertOther(w, keep, t, Ranks(NewTimeout(s, t), s.tick));
    WithoutSelect(s.pending, DueSet(s), t);
  }

  lemma StopDue(s: State, t: Id)
    requires Good(s)
    ensures DueSeq(Stop(s, t)) == if t in s.active then Without(DueSeq(s), t) else DueSeq(s)
  {
    WithoutSelect(s.pending, DueSet(s), t);
  }

  lemma {:induction false} WithoutShorter(s: seq<Id>, t: Id)
    ensures |Without(s, t)| <= |s| && Subsequence(Without(s, t), s)
  {
    if s != [] {
      WithoutShorter(s[1..], t);
      if s[0] == t { SkipSubsequence(Without(s, t), s); }
      else { assert Without(s, t)[1..] == Without(s[1..], t); }
    }
  }

  /** What a timeout function leaves due: some of what was due, in order, and everything it does not name. */
  lemma {:induction false} CallDue(s: State, ops: seq<Op>)
    requires Good(s) && Known(ops, s.init.Keys)
    ensures |DueSeq(Call(s, ops))| <= |DueSeq(s)|
    ensures Subsequence(DueSeq(Call(s, ops)), DueSeq(s))
    ensures forall x :: x in DueSeq(s) && !Names(ops, x) ==> x in DueSeq(Call(s, ops))
    decreases |ops|
  {
    if ops == [] {
      SubsequenceSelf(DueSeq(s));
    } else {
      var m := Do(s, ops[0]);
      DoDue(s, ops[0]);
      CallDue(m, ops[1..]);
      SubsequenceTrans(DueSeq(Call(s, ops)), DueSeq(m), DueSeq(s));
      forall x | x in DueSeq(s) && !Names(ops, x) ensures x in DueSeq(Call(s, ops)) {
        NamesTail(ops, x);
      }
    }
  }

  lemma DoDue(s: State, op: Op)
    requires Good(s) && Proper(op, s.init.Keys)
    ensures |DueSeq(Do(s, op))| <= |DueSeq(s)| && Subsequence(DueSeq(Do(s, op)), DueSeq(s))
    ensures forall x :: x in DueSeq(s) && x != op.id ==> x in DueSeq(Do(s, op))
  {
    StartDue(s, op.id);
    StopDue(s, op.id);
    WithoutShorter(DueSeq(s), op.id);
    WithoutIn(DueSeq(s), op.id);
    SubsequenceSelf(DueSeq(s));
  }

  lemma {:induction false} SubsequenceSelf(s: seq<Id>)
    ensures Subsequence(s, s)
  {
    if s != [] { SubsequenceSelf(s[1..]); }
  }

  lemma {:induction false} SubsequenceTrans(a: seq<Id>, b: seq<Id>, c: seq<Id>)
    requires Subsequence(a, b) && Subsequence(b, c)
    ensures Subsequence(a, c)
    decreases |b| + |c|
  {
    if a != [] && b != [] && c != [] {
      if b[0] == c[0] {
        if a[0] == b[0] { SubsequenceTrans(a[1..], b[1..], c[1..]); }
        else { SubsequenceTrans(a, b[1..], c[1..]); SkipSubsequence(a, c); }
      } else {
        SubsequenceTrans(a, b, c[1..]);
        SkipSubsequence(a, c);
      }
    }
  }

  /** The first pending timer is the first due one. */
  lemma HeadDue(s: State)
    requires Good(s) && s.pending != []
    ensures Due(s) <==> s.timeout[s.pending[0]] == s.tick
    ensures Due(s) ==> DueSeq(s) == [s.pending[0]] + DueSeq(Popped(s))
    ensures !Due(s) ==> DueSeq(s) == []
  {
    var rk := Ranks(s.timeout, s.tick);
    assert s.pending[0] in s.pending;
    DueTest(s.tick, s.timeout[s.pending[0]]);
    if !Due(s) {
      forall x | x in s.pending ensures x !in DueSet(s) {
        var i :| 0 <= i < |s.pending| && s.pending[i] == x;
        assert rk[s.pending[0]] <= rk[x];
        RankZero(s.tick, s.timeout[s.pending[0]]);
      }
      SelectNone(s.pending, DueSet(s));
    }
  }

  lemma RankZero(now: int, d: int)
    requires IsTick(now) && IsTick(d)
    ensures Rank(now, d) == 0 <==> d == now
    ensures Rank(now, d) >= 0
  {
  }

  lemma FinishDue(c: State, t: Id)
    requires Good(c) && t in c.init
    ensures |DueSeq(Finish(c, t))| <= |DueSeq(c)| && Subsequence(DueSeq(Finish(c, t)), DueSeq(c))
    ensures forall x :: x in DueSeq(c) && x != t ==> x in DueSeq(Finish(c, t))
  {
    var d := c.(active := c.active - {t});
    assert DueSeq(d) == DueSeq(c);
    StartDue(d, t);
    WithoutShorter(DueSeq(c), t);
    WithoutIn(DueSeq(c), t);
    SubsequenceSelf(DueSeq(c));
  }

  /** One round fires the first due timer; what it leaves due was due before, in order. */
  lemma FireDue(s: State)
    requires Good(s) && Due(s)
    ensures DueSeq(s) == [s.pending[0]] + DueSeq(Popped(s))
    ensures |DueSeq(Fire(s))| < |DueSeq(s)|
    ensures Subsequence(DueSeq(Fire(s)), DueSeq(Popped(s)))
    ensures forall x :: x in DueSeq(Popped(s)) && !Names(s.callbacks[s.pending[0]], x) ==> x in DueSeq(Fire(s))
  {
    var t, q, c := s.pending[0], Popped(s), Called(s);
    HeadDue(s);
    CallDue(q, s.callbacks[t]);
    FinishDue(c, t);
    SubsequenceTrans(DueSeq(Fire(s)), DueSeq(c), DueSeq(q));
    SelectIn(q.pending, DueSet(q));
    assert t !in q.pending;
  }
}
