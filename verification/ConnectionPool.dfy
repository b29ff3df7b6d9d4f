/**
 * The connection pool of El/MySQL/DB.cpp and El/MySQL/DB.hpp: one mutex, one condition variable, and
 * a single signal at every release.
 *
 * The class holds the fields of the factory; each of its methods is one critical section, proved
 * against a function on Pool.  The step system lets any number of threads run these sections in any
 * order, with time-outs and spurious wake-ups.
 */
module ConnectionPool {

  import opened Wrappers

  type Connection = nat

  type Thread = nat

  /** used and waiting are never negative in a reachable state: see Inv. */
  datatype Pool = Pool(min: nat, max: nat, used: int, idle: seq<Connection>, waiting: int)

  datatype Reuse = Reused(c: Connection) | Null | CreationFailed

  // --- Critical sections --------------------------------------------------------------------

  /** The outcome of reuse_connection, where created is the connection that new would give, if it succeeds. */
  function ReuseResult(p: Pool, created: Option<Connection>): Reuse {
    if p.idle != [] then Reused(p.idle[|p.idle| - 1])
    else if p.used < p.max then if created.Some? then Reused(created.value) else CreationFailed
    else Null
  }

  function AfterReuse(p: Pool, created: Option<Connection>): Pool {
    if p.idle != [] then p.(used := p.used + 1, idle := p.idle[..|p.idle| - 1])
    else if p.used < p.max && created.Some? then p.(used := p.used + 1)
    else p
  }

  /** A released connection is deleted only if nobody waits and more than the minimum remain. */
  predicate Recycled(p: Pool) {
    p.waiting == 0 && p.used + |p.idle| > p.min
  }

  function AfterRelease(p: Pool, c: Connection): Pool {
    p.(used := p.used - 1, idle := if Recycled(p) then p.idle else p.idle + [c])
  }

  datatype Outcome = Got(c: Connection) | GotNull | MustWait | Timeout | Failed

  function ToOutcome(r: Reuse): Outcome {
    match r
    case Reused(c) => Got(c)
    case Null => GotNull
    case CreationFailed => Failed
  }

  class ConnectionPoolFactory {
    const min: nat
    const max: nat
    var used: int
    var idle: seq<Connection>
    var waiting: int

    function State(): Pool
      reads this
    {
      Pool(min, max, used, idle, waiting)
    }

    constructor (min: nat, max: nat)
      requires min <= max
      ensures State() == Pool(min, max, 0, [], 0)
    {
      this.min := min;
      this.max := max;
      used, idle, waiting := 0, [], 0;
    }

    /** The checked construction: a minimum above the maximum is an invalid argument. */
    static method Create(min: nat, max: nat) returns (f: ConnectionPoolFactory?)
      ensures f == null <==> min > max
      ensures f != null ==> fresh(f) && f.State() == Pool(min, max, 0, [], 0)
    {
      if min > max {
        f := null;
      } else {
        f := new ConnectionPoolFactory(min, max);
      }
    }

    /** Fill the idle list with the minimum of connections; created are those that new gives. */
    method Db(created: seq<Connection>)
      requires |created| == min
      modifies this`idle
      ensures idle == created
    {
      idle := [];
      for i := 0 to min
        invariant idle == created[..i]
      {
        idle := idle + [created[i]];
      }
    }

    method ReuseConnection(created: Option<Connection>) returns (r: Reuse)
      modifies this`used, this`idle
      ensures r == ReuseResult(old(State()), created)
      ensures State() == AfterReuse(old(State()), created)
    {
      if idle != [] {
        used := used + 1;
        r := Reused(idle[|idle| - 1]);
        idle := idle[..|idle| - 1];
      } else if used < max {
        if created.None? {
          return CreationFailed;
        }
        used := used + 1;
        r := Reused(created.value);
      } else {
        r := Null;
      }
    }

    /** connect up to the wait. */
    method Enter(created: Option<Connection>) returns (o: Outcome)
      modifies this
      ensures var p := old(State());
        if ReuseResult(p, created).Null? then o == MustWait && State() == p.(waiting := p.waiting + 1)
        else o == ToOutcome(ReuseResult(p, created)) && State() == AfterReuse(p, created)
    {
      var r := ReuseConnection(created);
      if r.Null? {
        waiting := waiting + 1;
        o := MustWait;
      } else {
        o := ToOutcome(r);
      }
    }

    /** connect after a wait that was signalled. */
    method Resume(created: Option<Connection>) returns (o: Outcome)
      modifies this
      ensures var p := old(State());
        if p.used == p.max then o == MustWait && State() == p
        else o == ToOutcome(ReuseResult(p, created)) && State() == AfterReuse(p, created).(waiting := p.waiting - 1)
    {
      if used == max {
        return MustWait;
      }
      waiting := waiting - 1;
      var r := ReuseConnection(created);
      o := ToOutcome(r);
    }

    /** connect after a wait that timed out or failed. */
    method GiveUp(timedOut: bool) returns (o: Outcome)
      modifies this`waiting
      ensures waiting == old(waiting) - 1
      ensures o == if timedOut then Timeout else Failed
    {
      waiting := waiting - 1;
      o := if timedOut then Timeout else Failed;
    }

    method Released(c: Connection)
      modifies this
      ensures State() == AfterRelease(old(State()), c)
    {
      var recycle := waiting == 0 && used + |idle| > min;
      used := used - 1;
      if !recycle {
        idle := idle + [c];
      }
    }
  }

  // --- The step system ----------------------------------------------------------------------

  /**
   * sleeping threads wait unsignalled; woken ones have left the wait and not run yet, the signalled ones
   * among them because of a signal and the others spuriously; the wait of an expired one timed out or
   * failed.  A returning connection has lost its last reference but has not reached the lock.
   */
  datatype System = System(
    pool: Pool, sleeping: set<Thread>, woken: set<Thread>, signalled: set<Thread>, expired: set<Thread>,
    held: set<Connection>, returning: set<Connection>)

  datatype Step =
    | Connect(t: Thread, created: Option<Connection>)
    | Wake(t: Thread, created: Option<Connection>)
    | Expire(t: Thread)
    | Abandon(t: Thread)
    | Spurious(t: Thread)
    | Drop(c: Connection)
    | Release(c: Connection, wakes: Option<Thread>)

  ghost function Waiters(s: System): set<Thread> {
    s.sleeping + s.woken + s.expired
  }

  ghost predicate Unknown(s: System, created: Option<Connection>) {
    created.Some? ==> created.value !in s.pool.idle && created.value !in s.held + s.returning
  }

  ghost predicate Enabled(s: System, step: Step) {
    match step
    case Connect(t, created) => t !in Waiters(s) && Unknown(s, created)
    case Wake(t, created) => t in s.woken && Unknown(s, created)
    case Expire(t) => t in s.sleeping
    case Abandon(t) => t in s.expired
    case Spurious(t) => t in s.sleeping
    case Drop(c) => c in s.held
    case Release(c, Some(t)) => c in s.returning && t in s.sleeping
    case Release(c, None) => c in s.returning && s.sleeping == {}
  }

  function TakeFrom(s: System, pool: Pool, r: Reuse): System {
    s.(pool := pool, held := if r.Reused? then s.held + {r.c} else s.held)
  }

  function Next(s: System, step: Step): System {
    var p := s.pool;
    match step
    case Connect(t, created) =>
      var r := ReuseResult(p, created);
      if r.Null? then s.(pool := p.(waiting := p.waiting + 1), sleeping := s.sleeping + {t})
      else TakeFrom(s, AfterReuse(p, created), r)
    case Wake(t, created) =>
      var awake := s.(woken := s.woken - {t}, signalled := s.signalled - {t});
      if p.used == p.max then awake.(sleeping := s.sleeping + {t})
      else TakeFrom(awake, AfterReuse(p, created).(waiting := p.waiting - 1), ReuseResult(p, created))
    case Expire(t) => s.(sleeping := s.sleeping - {t}, expired := s.expired + {t})
    case Abandon(t) => s.(expired := s.expired - {t}, pool := p.(waiting := p.waiting - 1))
    case Spurious(t) => s.(sleeping := s.sleeping - {t}, woken := s.woken + {t})
    case Drop(c) => s.(held := s.held - {c}, returning := s.returning + {c})
    case Release(c, wakes) =>
      var s' := s.(pool := AfterRelease(p, c), returning := s.returning - {c});
      match wakes
      case None => s'
      case Some(t) => s'.(sleeping := s.sleeping - {t}, woken := s.woken + {t}, signalled := s.signalled + {t})
  }

  // --- Safety -------------------------------------------------------------------------------

  /** The connections in somebody's hands, or on their way back. */
  ghost function Out(s: System): set<Connection> {
    s.held + s.returning
  }

  /** The counters describe the connections that are out, none of which is idle. */
  ghost predicate PoolInv(p: Pool, out: set<Connection>) {
    && p.min <= p.used + |p.idle| <= p.max
    && p.used == |out|
    && (forall i, j :: 0 <= i < j < |p.idle| ==> p.idle[i] != p.idle[j])
    && (forall i :: 0 <= i < |p.idle| ==> p.idle[i] !in out)
  }

  /** Each waiter is in one of the three states, and together they number n. */
  ghost predicate Counted(sleeping: set<Thread>, woken: set<Thread>, expired: set<Thread>, n: int) {
    && sleeping !! woken && sleeping !! expired && woken !! expired
    && n == |sleeping| + |woken| + |expired|
  }

  ghost predicate WaitersInv(s: System) {
    Counted(s.sleeping, s.woken, s.expired, s.pool.waiting) && s.signalled <= s.woken
  }

  /** While anybody waits, the pool holds as many connections as it may. */
  ghost predicate Saturated(p: Pool) {
    p.waiting > 0 ==> p.used + |p.idle| == p.max
  }

  ghost predicate Inv(s: System) {
    PoolInv(s.pool, Out(s)) && Saturated(s.pool) && s.held !! s.returning && WaitersInv(s)
  }

  /**
   * connect never hands out null after a wait, and never creates a connection then: a waiter that leaves
   * the loop finds an idle one.
   */
  lemma WakeTakesIdle(s: System, t: Thread, created: Option<Connection>)
    requires Inv(s) && Enabled(s, Wake(t, created)) && s.pool.used != s.pool.max
    ensures s.pool.idle != [] && ReuseResult(s.pool, created) == Reused(s.pool.idle[|s.pool.idle| - 1])
  {
    assert t in s.woken;
    assert |s.woken| > 0;
  }

  lemma ReuseKeepsPool(p: Pool, out: set<Connection>, created: Option<Connection>)
    requires PoolInv(p, out)
    requires created.Some? ==> created.value !in p.idle && created.value !in out
    ensures var r := ReuseResult(p, created);
      && (r.Reused? ==> r.c !in out)
      && PoolInv(AfterReuse(p, created), if r.Reused? then out + {r.c} else out)
  {
    var p', r := AfterReuse(p, created), ReuseResult(p, created);
    if p.idle != [] {
      forall i | 0 <= i < |p'.idle| ensures p'.idle[i] !in out + {r.c} {
        assert p'.idle[i] == p.idle[i];
      }
    }
  }

  lemma ReleaseKeepsPool(p: Pool, out: set<Connection>, c: Connection)
    requires PoolInv(p, out) && c in out
    ensures PoolInv(AfterRelease(p, c), out - {c})
  {}

  lemma TakeKeepsPool(s: System, pool: Pool, created: Option<Connection>)
    requires Inv(s) && Unknown(s, created)
    requires pool == AfterReuse(s.pool, created).(waiting := pool.waiting)
    ensures var s' := TakeFrom(s, pool, ReuseResult(s.pool, created)); PoolInv(s'.pool, Out(s'))
  {
    var r := ReuseResult(s.pool, created);
    ReuseKeepsPool(s.pool, Out(s), created);
    WaitingIsFree(AfterReuse(s.pool, created), pool.waiting, if r.Reused? then Out(s) + {r.c} else Out(s));
    hide PoolInv, WaitersInv, ReuseResult, AfterReuse;
    assert r.Reused? ==> s.held + {r.c} + s.returning == Out(s) + {r.c};
  }

  lemma TakingKeepsPool(s: System, step: Step)
    requires Inv(s) && Enabled(s, step) && (step.Connect? || step.Wake?)
    ensures PoolInv(Next(s, step).pool, Out(Next(s, step)))
  {
    var p, s' := s.pool, Next(s, step);
    TakeKeepsPool(s, AfterReuse(p, step.created).(waiting := s'.pool.waiting), step.created);
    WaitingIsFree(p, p.waiting + 1, Out(s));
    hide PoolInv, WaitersInv, Waiters, ReuseResult, AfterReuse, AfterRelease;
  }

  lemma StepKeepsPool(s: System, step: Step)
    requires Inv(s) && Enabled(s, step)
    ensures PoolInv(Next(s, step).pool, Out(Next(s, step)))
  {
    var p, s' := s.pool, Next(s, step);
    if step.Connect? || step.Wake? {
      TakingKeepsPool(s, step);
    } else if step.Release? {
      ReleaseKeepsPool(p, Out(s), step.c);
      assert s.held + (s.returning - {step.c}) == Out(s) - {step.c};
    } else {
      WaitingIsFree(p, p.waiting - 1, Out(s));
      assert step.Drop? ==> Out(s') == Out(s);
    }
    hide PoolInv, WaitersInv, Waiters, ReuseResult, AfterReuse, AfterRelease;
  }

  lemma WaitingIsFree(p: Pool, n: int, out: set<Connection>)
    ensures PoolInv(p, out) ==> PoolInv(p.(waiting := n), out)
  {}

  lemma EntersSleep(sleeping: set<Thread>, woken: set<Thread>, expired: set<Thread>, n: int, t: Thread)
    requires Counted(sleeping, woken, expired, n) && t !in sleeping + woken + expired
    ensures Counted(sleeping + {t}, woken, expired, n + 1)
  {}

  lemma LeavesWoken(sleeping: set<Thread>, woken: set<Thread>, expired: set<Thread>, n: int, t: Thread)
    requires Counted(sleeping, woken, expired, n) && t in woken
    ensures Counted(sleeping, woken - {t}, expired, n - 1)
    ensures Counted(sleeping + {t}, woken - {t}, expired, n)
  {}

  lemma LeavesSleep(sleeping: set<Thread>, woken: set<Thread>, expired: set<Thread>, n: int, t: Thread)
    requires Counted(sleeping, woken, expired, n) && t in sleeping
    ensures Counted(sleeping - {t}, woken + {t}, expired, n)
    ensures Counted(sleeping - {t}, woken, expired + {t}, n)
  {}

  lemma LeavesExpired(sleeping: set<Thread>, woken: set<Thread>, expired: set<Thread>, n: int, t: Thread)
    requires Counted(sleeping, woken, expired, n) && t in expired
    ensures Counted(sleeping, woken, expired - {t}, n - 1)
  {}

  lemma StepKeepsWaiters(s: System, step: Step)
    requires Inv(s) && Enabled(s, step)
    ensures WaitersInv(Next(s, step))
  {
    var n := s.pool.waiting;
    match step {
      case Connect(t, _) => EntersSleep(s.sleeping, s.woken, s.expired, n, t);
      case Wake(t, _) => LeavesWoken(s.sleeping, s.woken, s.expired, n, t);
      case Abandon(t) => LeavesExpired(s.sleeping, s.woken, s.expired, n, t);
      case Expire(t) => LeavesSleep(s.sleeping, s.woken, s.expired, n, t);
      case Spurious(t) => LeavesSleep(s.sleeping, s.woken, s.expired, n, t);
      case Release(_, Some(t)) => LeavesSleep(s.sleeping, s.woken, s.expired, n, t);
      case _ =>
    }
    hide Counted, PoolInv, Unknown, ReuseResult;
  }

  lemma StepKeepsSaturated(s: System, step: Step)
    requires Inv(s) && Enabled(s, step)
    ensures Saturated(Next(s, step).pool)
  {
    if step.Wake? {
      assert |s.woken| > 0;
      if s.pool.used != s.pool.max {
        WakeTakesIdle(s, step.t, step.created);
      }
    }
    hide WaitersInv, Waiters, Unknown;
  }

  /**
   * Every step of every thread keeps the bounds min <= used + idle <= max, the count of handed-out
   * connections, the separation of idle from used connections and the count of waiters.
   */
  lemma StepKeepsInv(s: System, step: Step)
    requires Inv(s) && Enabled(s, step)
    ensures Inv(Next(s, step))
  {
    StepKeepsWaiters(s, step);
    StepKeepsPool(s, step);
    StepKeepsSaturated(s, step);
    hide PoolInv, WaitersInv, Saturated;
    if step.Connect? || step.Wake? {
      ReuseKeepsPool(s.pool, Out(s), step.created);
    }
  }

  // --- No lost wake-up ----------------------------------------------------------------------

  /** While a thread sleeps unsignalled, every free connection is spoken for by a signalled one that has not run. */
  ghost predicate NoLostWakeup(s: System) {
    s.sleeping != {} ==> s.pool.max - s.pool.used <= |s.signalled|
  }

  lemma OneMore(a: set<Thread>, t: Thread)
    requires t !in a
    ensures |a + {t}| == |a| + 1
  {}

  lemma OneLess(a: set<Thread>, t: Thread)
    requires t in a
    ensures |a - {t}| == |a| - 1
  {}

  /** No step loses a wake-up: not a barging connect, a time-out, a spurious wake-up or a failed creation. */
  lemma StepLosesNoWakeup(s: System, step: Step)
    requires Inv(s) && NoLostWakeup(s) && Enabled(s, step)
    ensures NoLostWakeup(Next(s, step))
  {
    match step {
      case Wake(t, created) =>
        if t in s.signalled {
          OneLess(s.signalled, t);
        } else {
          assert s.signalled - {t} == s.signalled;
        }
        if s.pool.used != s.pool.max {
          WakeTakesIdle(s, t, created);
        }
      case Release(_, Some(t)) => OneMore(s.signalled, t);
      case _ =>
    }
    hide Unknown, Waiters, Saturated;
  }

  /** When no signal is on its way, a sleeping thread means that all connections are out. */
  lemma SleepersMeanAllOut(s: System)
    requires Inv(s) && NoLostWakeup(s) && s.sleeping != {} && s.signalled == {}
    ensures s.pool.used == s.pool.max && s.pool.idle == []
  {}

  // --- Runs ---------------------------------------------------------------------------------

  /** A factory after db(): the minimum of distinct idle connections, and nobody waiting. */
  ghost predicate Initial(s: System) {
    && s.pool.min <= s.pool.max && s.pool.used == 0 && s.pool.waiting == 0
    && |s.pool.idle| == s.pool.min
    && (forall i, j :: 0 <= i < j < |s.pool.idle| ==> s.pool.idle[i] != s.pool.idle[j])
    && s.sleeping == s.woken == s.signalled == s.expired == {} && s.held == s.returning == {}
  }

  ghost predicate Runs(s: System, steps: seq<Step>)
    decreases steps
  {
    steps == [] || (Enabled(s, steps[0]) && Runs(Next(s, steps[0]), steps[1..]))
  }

  /** The state after the steps of a run. */
  function After(s: System, steps: seq<Step>): System
    decreases steps
  {
    if steps == [] then s else After(Next(s, steps[0]), steps[1..])
  }

  lemma InitialInv(s: System)
    requires Initial(s)
    ensures Inv(s) && NoLostWakeup(s)
  {}

  /** In every run from a fresh factory the invariant holds and no wake-up is lost. */
  lemma {:induction false} RunIsSafe(s: System, steps: seq<Step>)
    requires Inv(s) && NoLostWakeup(s) && Runs(s, steps)
    ensures Inv(After(s, steps)) && NoLostWakeup(After(s, steps))
    decreases steps
  {
    hide Inv, Next, Enabled, NoLostWakeup;
    if steps != [] {
      StepKeepsInv(s, steps[0]);
      StepLosesNoWakeup(s, steps[0]);
      RunIsSafe(Next(s, steps[0]), steps[1..]);
    }
  }

  /** After every run a sleeping thread with no signal on its way means that every connection is out. */
  lemma RunBlocksOnlyWhenAllOut(s: System, steps: seq<Step>)
    requires Initial(s) && Runs(s, steps)
    requires After(s, steps).sleeping != {} && After(s, steps).signalled == {}
    ensures |Out(After(s, steps))| == s.pool.max && After(s, steps).pool.idle == []
  {
    InitialInv(s);
    RunIsSafe(s, steps);
    RunKeepsLimits(s, steps);
    SleepersMeanAllOut(After(s, steps));
  }

  lemma {:induction false} RunKeepsLimits(s: System, steps: seq<Step>)
    ensures After(s, steps).pool.min == s.pool.min && After(s, steps).pool.max == s.pool.max
    decreases steps
  {
    if steps != [] {
      RunKeepsLimits(Next(s, steps[0]), steps[1..]);
    }
  }

  /** Were a time-out to swallow a signal sent to the same thread, the invariant of wake-ups would break. */
  lemma SwallowedSignalLosesWakeup(s: System, t: Thread)
    requires Inv(s) && NoLostWakeup(s) && t in s.signalled
    ensures NoLostWakeup(s.(woken := s.woken - {t}, signalled := s.signalled - {t}, expired := s.expired + {t}))
       <==> s.sleeping == {} || s.pool.max - s.pool.used < |s.signalled|
  {
    OneLess(s.signalled, t);
  }

  // --- How many connections there are -------------------------------------------------------

  /** The connections that exist: those that are out, and those that are idle. */
  function Total(p: Pool): int {
    p.used + |p.idle|
  }

  /** While nobody waits each release deletes one connection, down to the minimum. */
  lemma {:induction false} ReleasesShrink(s: System, steps: seq<Step>)
    requires Inv(s) && Runs(s, steps) && s.pool.waiting == 0 && forall step :: step in steps ==> step.Release?
    ensures Total(After(s, steps).pool) == Larger(s.pool.min, Total(s.pool) - |steps|)
    ensures After(s, steps).pool.used == s.pool.used - |steps|
    decreases steps
  {
    if steps == [] {
    } else {
      StepKeepsInv(s, steps[0]);
      assert steps[0] in steps && forall step :: step in steps[1..] ==> step in steps;
      ReleasesShrink(Next(s, steps[0]), steps[1..]);
    }
  }

  function Larger(a: int, b: int): int {
    if a < b then b else a
  }

  /** While somebody waits no connection is deleted. */
  lemma {:induction false} WaitersKeepConnections(s: System, steps: seq<Step>)
    requires Inv(s) && Runs(s, steps) && s.pool.waiting > 0 && forall step :: step in steps ==> step.Release?
    ensures Total(After(s, steps).pool) == Total(s.pool) == s.pool.max
    ensures After(s, steps).pool.used == s.pool.used - |steps|
    decreases steps
  {
    if steps == [] {
    } else {
      StepKeepsInv(s, steps[0]);
      assert steps[0] in steps && forall step :: step in steps[1..] ==> step in steps;
      WaitersKeepConnections(Next(s, steps[0]), steps[1..]);
    }
  }

  /**
   * connect waits exactly if all connections that may exist are out.  Otherwise it hands out one, and creates it
   * only if none is idle; if that fails nothing changes.
   */
  lemma ConnectWaitsExactlyWhen(s: System, t: Thread, created: Option<Connection>)
    requires Inv(s) && Enabled(s, Connect(t, created))
    ensures var s' := Next(s, Connect(t, created));
      && (t in s'.sleeping <==> s.pool.used == s.pool.max)
      && (s.pool.used < s.pool.max && s.pool.idle == [] && created.None? ==> s' == s)
      && (s.pool.used < s.pool.max && (s.pool.idle != [] || created.Some?) ==>
           && |Out(s')| == |Out(s)| + 1 && s'.pool.used == s.pool.used + 1
           && Total(s'.pool) == Total(s.pool) + (if s.pool.idle == [] then 1 else 0)
           && (s.pool.idle == [] ==> created.value in s'.held))
  {
    StepKeepsInv(s, Connect(t, created));
    hide Counted;
  }

  /** A released connection that is kept is the next to be handed out. */
  lemma ReleasedIsReused(s: System, c: Connection, wakes: Option<Thread>, t: Thread, created: Option<Connection>)
    requires Inv(s) && Enabled(s, Release(c, wakes)) && c in Next(s, Release(c, wakes)).pool.idle
    requires Enabled(Next(s, Release(c, wakes)), Connect(t, created))
    ensures c in Next(Next(s, Release(c, wakes)), Connect(t, created)).held
  {
  }
}
