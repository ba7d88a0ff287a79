/** rt_mutex as an object: its methods change the fields in place and do what the steps of MutexSpec say. */
module Mutex {
  import opened StableOrder
  import opened WaitQueue
  import M = MutexSpec
  import T = MutexTheorems

  class Mutex {
    const flag: Flag
    var value: int
    var owner: M.Owner
    var originalPriority: int
    var hold: int
    var suspended: seq<Id>    // the thread list of the IPC object
    var priority: map<Id, int> // current_priority of every thread
    ghost var history: M.History
    ghost const base: map<Id, int>

    ghost function Abs(): M.State
      reads this
    {
      M.State(flag, value, owner, originalPriority, hold, suspended, priority)
    }

    ghost predicate Valid()
      reads this
    {
      M.Inv(Abs(), history, base)
    }

    /** rt_mutex_init */
    constructor (f: Flag, threads: map<Id, int>)
      ensures Valid() && Abs() == M.Init(f, threads) && base == threads && history == M.History([], [])
    {
      flag, value, owner, originalPriority, hold := f, 1, M.Nobody, 0xff, 0;
      suspended, priority := [], threads;
      base, history := threads, M.History([], []);
    }

    /** rt_mutex_take by thread `t`, waiting unless the time is 0. */
    method Take(t: Id, wait: bool) returns (r: M.Outcome)
      requires Valid() && t in priority && t !in suspended
      modifies this
      ensures Valid() && (Abs(), r) == M.TakeStep(old(Abs()), t, wait)
      ensures r == M.Taken <==> owner == M.Thread(t)
      ensures r == M.Taken ==> hold == old(hold) + 1
      ensures r == M.Waiting <==> t in suspended
      ensures (Abs(), history) == M.Step(old(Abs()), old(history), base, M.Take(t, wait))
    {
      ghost var s, h := Abs(), history;
      M.TakeInv(s, h, base, t, wait);
      T.TakeOutcome(s, h, base, t, wait);
      M.InvUse(s, h, base);
      history := M.Step(s, h, base, M.Take(t, wait)).1;
      if owner == M.Thread(t) {
        hold := hold + 1;
      } else if value > 0 {
        value := value - 1;
        owner := M.Thread(t);
        originalPriority := priority[t];
        hold := hold + 1;
      } else if !wait {
        return M.TimedOut;
      } else {
        if priority[t] < priority[owner.id] {
          priority := M.SetPriority(priority, owner.id, priority[t]);
        }
        suspended := Suspend(flag, suspended, t, priority);
        return M.Waiting;
      }
      r := M.Taken;
    }

    /** rt_mutex_release by thread `t`. */
    method Release(t: Id) returns (ok: bool)
      requires Valid() && t in priority && t !in suspended
      modifies this
      ensures Valid() && (Abs(), ok) == M.ReleaseStep(old(Abs()), t)
      ensures ok <==> old(owner) == M.Thread(t)
      ensures ok ==> (owner == M.Thread(t) <==> old(hold) > 1) && (old(hold) > 1 ==> hold == old(hold) - 1)
      ensures (Abs(), history) == M.Step(old(Abs()), old(history), base, M.Release(t))
    {
      ghost var s, h := Abs(), history;
      M.ReleaseInv(s, h, base, t);
      M.InvUse(s, h, base);
      if M.Thread(t) != owner {
        return false;
      }
      history := M.Step(s, h, base, M.Release(t)).1;
      hold := hold - 1;
      if hold == 0 {
        if originalPriority != priority[t] {
          priority := M.SetPriority(priority, t, originalPriority);
        }
        assert priority == M.SetPriority(s.prio, t, s.original);
        if suspended != [] {
          var w := suspended[0];
          owner := M.Thread(w);
          originalPriority := priority[w];
          hold := hold + 1;
          suspended := suspended[1..];
        } else {
          value := value + 1;
          owner := M.Nobody;
          originalPriority := 0xff;
        }
      }
      ok := true;
    }

    /** rt_thread_timeout of a thread that waits: its list node is removed. */
    method Expire(t: Id)
      requires Valid() && t in suspended
      modifies this
      ensures Valid() && Abs() == M.ExpireStep(old(Abs()), t)
      ensures (Abs(), history) == M.Step(old(Abs()), old(history), base, M.Expire(t))
    {
      ghost var s, h := Abs(), history;
      M.ExpireInv(s, h, base, t);
      M.InvUse(s, h, base);
      history := M.Step(s, h, base, M.Expire(t)).1;
      suspended := Unlink(suspended, t);
    }
  }
}
