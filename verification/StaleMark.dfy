/** A run in which a remembered slot has gone stale.

    Six threads wait with a time limit.  Two unlocks release threads from the middle of the
    ring, and the waits of the last two threads run out.  The last one runs first: it removes
    the first waiter, whose wait has not run out, and is itself still in the ring when it
    returns. */
module StaleMark {
  import opened Tcbs
  import opened Ring
  import opened Sems
  import opened Itc
  import opened Family

  /** Thread 6 is the idle thread, and slot 7 of the pool is free. */
  function Start(i: int): Tcb {
    var prio := if i == 1 then 1 else if i == 2 then 2 else if i == 6 then 4 else 3;
    Tcb(i, NIL, 0, i != 7, READY, OnSched(NIL), 0, E_NONE, 0, prio)
  }

  function Limit(i: int): nat {
    if i < 4 then 100 else 10
  }

  function Waiting(i: int): Tcb {
    Block(Start(i), true, Limit(i))
  }

  method AllEnter() returns (s: Semaphore, pool: array<Tcb>, mark: nat)
    ensures s.Valid() && fresh(s) && fresh(s.blocked) && fresh(pool)
    ensures s.Model() == Sem(-6, [0, 1, 2, 3, 4, 5], true, 16) && s.outIdx == 0 && s.levels == 5 && mark == 6
    ensures AllWait(pool[..])
  {
    pool := new Tcb[8](i => Start(i));
    s := new Semaphore(16, 5, 0, true, SEM);
    mark := 0;
    for i := 0 to 6
      invariant s.Valid() && s.outIdx == 0 && s.Model() == Sem(-i, seq(i, k => k), true, 16) && s.levels == 5
      invariant fresh(s) && fresh(s.blocked) && fresh(pool) && pool.Length == 8
      invariant forall k :: 0 <= k < 8 ==> pool[k] == if k < i then Waiting(k) else Start(k)
      invariant i > 0 ==> mark == s.inIdx
    {
      assert seq(i, k => k) + [i] == seq(i + 1, k => k);
      var o := s.LockEnter(pool, i, Limit(i), 0);
      mark := o.mark;
    }
    assert s.waiters == [0, 1, 2, 3, 4, 5];
  }

  ghost predicate AllWait(pool: seq<Tcb>) {
    |pool| == 8 && forall i :: 0 <= i < 8 ==> pool[i] == if i < 6 then Waiting(i) else Start(i)
  }

  /** Threads 1 and 2 have been released. */
  ghost predicate TwoGone(pool: seq<Tcb>) {
    && |pool| == 8
    && forall i :: 0 <= i < 8 ==>
         pool[i] == if i == 1 || i == 2 then Released(Waiting(i)) else if i < 6 then Waiting(i) else Start(i)
  }

  /** A waiter in the middle of the ring has the best priority. */
  lemma MiddleFirst(ws: seq<int>, pool: seq<Tcb>)
    requires |pool| == 8 && AllIn(ws, 6) && 2 < |ws| && ws[0] == 0 && (ws[1] == 1 || ws[1] == 2)
    requires pool[0] == Waiting(0) && pool[ws[1]] == Waiting(ws[1])
    requires forall k :: 2 <= k < |ws| ==> ws[k] > ws[1] && pool[ws[k]] == Waiting(ws[k])
    ensures FirstMin(ws, pool) == 1
  {
    FirstMinUnique(ws, pool, 1);
  }

  lemma MiddlePicked(ws: seq<int>, pool: seq<Tcb>)
    requires AllIn(ws, |pool|) && 2 < |ws| < 16 && FirstMin(ws, pool) == 1
    ensures var u := Unlock(Sem(-|ws|, ws, true, 16), pool);
      u.0 == Sem(1 - |ws|, RemoveAt(ws, 1), true, 16) && u.1 == pool[ws[1] := Released(pool[ws[1]])]
  {
  }

  /** The unlocks release the two threads of better priority. */
  method TwoLeave(s: Semaphore, pool: array<Tcb>)
    requires s.Valid() && s.Model() == Sem(-6, [0, 1, 2, 3, 4, 5], true, 16) && s.outIdx == 0 && s.levels == 5
    requires AllWait(pool[..])
    modifies s`token, s`inIdx, s`outIdx, s`waiters, s.blocked, pool
    ensures s.Valid() && s.Model() == Sem(-4, [0, 3, 4, 5], true, 16) && s.outIdx == 0
    ensures TwoGone(pool[..])
  {
    MiddleFirst([0, 1, 2, 3, 4, 5], pool[..]);
    MiddlePicked([0, 1, 2, 3, 4, 5], pool[..]);
    assert RemoveAt([0, 1, 2, 3, 4, 5], 1) == [0, 2, 3, 4, 5];
    s.UnlockStage(pool);
    SecondLeaves(s, pool);
  }

  method SecondLeaves(s: Semaphore, pool: array<Tcb>)
    requires s.Valid() && s.Model() == Sem(-5, [0, 2, 3, 4, 5], true, 16) && s.outIdx == 0 && s.levels == 5
    requires pool.Length == 8 && forall i :: 0 <= i < 8 ==>
      pool[i] == if i == 1 then Released(Waiting(i)) else if i < 6 then Waiting(i) else Start(i)
    modifies s`token, s`inIdx, s`outIdx, s`waiters, s.blocked, pool
    ensures s.Valid() && s.Model() == Sem(-4, [0, 3, 4, 5], true, 16) && s.outIdx == 0
    ensures TwoGone(pool[..])
  {
    MiddleFirst([0, 2, 3, 4, 5], pool[..]);
    MiddlePicked([0, 2, 3, 4, 5], pool[..]);
    assert RemoveAt([0, 2, 3, 4, 5], 1) == [0, 3, 4, 5];
    s.UnlockStage(pool);
  }

  /** The timer passes: the waits of threads 4 and 5 have run out. */
  method TimerPasses(pool: array<Tcb>)
    requires TwoGone(pool[..])
    modifies pool
    ensures pool.Length == 8
    ensures forall i :: 0 <= i < 8 ==> pool[i] == TimedOut(old(pool[i]), 10)
  {
    for i := 0 to 8
      invariant forall k :: 0 <= k < 8 ==> pool[k] == if k < i then TimedOut(old(pool[k]), 10) else old(pool[k])
    {
      pool[i] := TimedOut(pool[i], 10);
    }
  }

  /** The sweep steps over thread 5 when it takes the one before. */
  lemma SweepSteps(pool: seq<Tcb>)
    requires |pool| == 8 && !Lapsed(pool[3]) && Lapsed(pool[4])
    ensures Sweep([3, 4, 5], pool, 0) == ([3, 5], pool[4 := Noted(pool[4])])
  {
    var pool' := pool[4 := Noted(pool[4])];
    assert RemoveAt([3, 4, 5], 1) == [3, 5];
    assert SweepOne([3, 4, 5], pool, 0) == ([3, 4, 5], pool, 0);
    assert SweepOne([3, 4, 5], pool, 1) == ([3, 5], pool', 1);
    assert Sweep([3, 5], pool', 2) == ([3, 5], pool');
  }

  /** The last thread remembers a slot behind the ring, so the head goes. */
  lemma HeadGoes(pool: seq<Tcb>)
    requires |pool| == 8 && !Lapsed(pool[3]) && Lapsed(pool[4]) && Lapsed(pool[5])
    ensures Resume(Sem(-4, [0, 3, 4, 5], true, 16), pool, 5, 5) ==
      (Sem(-2, [3, 5], true, 16), pool[4 := Noted(pool[4])], ERR_TIMEOUT)
  {
    hide Sweep;
    assert RemoveAt([0, 3, 4, 5], 0) == [3, 4, 5];
    SweepSteps(pool);
  }

  /** Nobody has children, is dead or waits in a join. */
  ghost predicate Single(pool: seq<Tcb>) {
    && |pool| == 8 && !pool[7].valid && pool[7].gid == NIL && pool[6] == Start(6) && pool[1].state == pool[5].state == READY
    && forall i :: 0 <= i < 7 ==>
         && pool[i].valid && pool[i].thid == i && pool[i].gid == NIL && pool[i].noChilds == 0
         && !pool[i].state.zombi && !pool[i].state.term && pool[i].prio == Start(i).prio
  }

  method StaleMarkRun() returns (s: Semaphore, pool: array<Tcb>, rc: Code)
    ensures fresh(s) && fresh(s.blocked) && fresh(pool)
    ensures s.Valid() && rc == ERR_TIMEOUT && s.Model() == Sem(-2, [3, 5], true, 16) && s.levels == 5
    ensures Single(pool[..]) && pool[0].state.queue && !pool[5].state.queue
  {
    var mark: nat;
    s, pool, mark := AllEnter();
    TwoLeave(s, pool);
    rc := LastResumes(s, pool, mark);
  }

  lemma StillSingle(was: seq<Tcb>, pool: seq<Tcb>)
    requires TwoGone(was) && |pool| == 8 && forall i :: 0 <= i < 8 ==> pool[i] == TimedOut(was[i], 10)
    ensures !Lapsed(pool[3]) && Lapsed(pool[4]) && Lapsed(pool[5]) && Single(pool[4 := Noted(pool[4])])
    ensures pool[0].state.queue && !pool[5].state.queue
  {
  }

  method LastResumes(s: Semaphore, pool: array<Tcb>, mark: nat) returns (rc: Code)
    requires s.Valid() && s.Model() == Sem(-4, [0, 3, 4, 5], true, 16) && s.outIdx == 0 && mark == 6
    requires TwoGone(pool[..])
    modifies s`token, s`inIdx, s`outIdx, s`waiters, s.blocked, pool
    ensures s.Valid() && rc == ERR_TIMEOUT && s.Model() == Sem(-2, [3, 5], true, 16)
    ensures Single(pool[..]) && pool[0].state.queue && !pool[5].state.queue
  {
    ghost var was := pool[..];
    TimerPasses(pool);
    StillSingle(was, pool[..]);
    HeadGoes(pool[..]);
    rc := s.LockResume(pool, 5, mark);
  }
}

/** What becomes of a thread that is still in the ring. */
module StaleHits {
  import opened Tcbs
  import opened Sems
  import opened Itc
  import opened Family
  import opened StaleMark
  import opened Wakers
  import F = FamilyRuns
  import M = Mutex

  /** The life cycle is in order. */
  function Begun(pool: seq<Tcb>): F.World {
    F.World(pool, seq(|pool|, _ => F.Free), seq(|pool|, _ => 0))
  }

  lemma BegunInOrder(pool: seq<Tcb>)
    requires Single(pool)
    ensures F.Inv(Begun(pool), 6)
  {
    forall t | 0 <= t < 8 ensures Member(pool, 6, t) && F.Thread(Begun(pool), t) {
      NoKids(pool, t);
    }
  }

  /** Thread 5 creates a child and joins it. */
  method Joins(pool: array<Tcb>) returns (ghost w: F.World)
    requires Single(pool[..])
    modifies pool
    ensures F.Inv(w, 6) && w.pool == pool[..] && w.pcs[5] == F.Joins(7) && w.pcs[3] == F.Free
    ensures Alive(pool[..], 7) && pool[7].gid == 5 && WaitsFor(pool[5], 7)
    ensures pool[3].prio == pool[5].prio == 3
  {
    ghost var w0 := Begun(pool[..]);
    BegunInOrder(pool[..]);
    var c := Created(pool[..], 7, 5, 4, 0);
    pool[7], pool[5] := c[7], c[5];
    assert pool[..] == c;
    ghost var w1 := w0.(pool := c);
    F.StepKeepsInvIff(w0, 6, F.Create(5, 7, 4, 0), w1);
    var j := Joining(c, 5, 7);
    pool[5] := j[5];
    assert pool[..] == j;
    w := F.World(j, w1.pcs[5 := F.Joins(7)], w1.died);
    F.StepKeepsInvIff(w1, 6, F.Join(5, 7), w);
  }

  /** Of two waiters with the same priority the first is picked, then the other. */
  lemma BothPicked(pool: seq<Tcb>)
    requires |pool| == 8 && pool[3].prio == pool[5].prio
    ensures var p := pool[3 := Released(pool[3])];
      && Pick(Sem(-2, [3, 5], true, 16), pool) == 3
      && Unlock(Sem(-2, [3, 5], true, 16), pool) == (Sem(-1, [5], true, 16), p)
      && Pick(Sem(-1, [5], true, 16), p) == 5
      && Unlock(Sem(-1, [5], true, 16), p) == (Sem(0, [], true, 16), p[5 := Released(p[5])])
  {
    FirstMinUnique([3, 5], pool, 0);
    FirstMinUnique([5], pool[3 := Released(pool[3])], 0);
    assert RemoveAt([3, 5], 0) == [5] && RemoveAt([5], 0) == [];
  }

  method TwoUnlocks(s: Semaphore, pool: array<Tcb>)
    requires s.Valid() && s.Model() == Sem(-2, [3, 5], true, 16) && s.levels == 5
    requires pool.Length == 8 && pool[3].prio == pool[5].prio == 3
    modifies s`token, s`inIdx, s`outIdx, s`waiters, s.blocked, pool
    ensures pool[..] == old(pool[..])[3 := Released(old(pool[3]))][5 := Released(old(pool[5]))]
  {
    BothPicked(pool[..]);
    s.UnlockStage(pool);
    s.UnlockStage(pool);
  }

  /** Two unlocks later it is ready, while its child lives, and the event is not the one that
      tk_join asserts.  `w` is the state before the second unlock. */
  method JoinCutShort() returns (pool: array<Tcb>, ghost w: F.World)
    ensures F.Inv(w, 6) && pool.Length == |w.pool| == 8 && w.pcs[5] == F.Joins(7)
    ensures pool[..] == w.pool[5 := Released(w.pool[5])] && !F.Inv(With(w, pool[..]), 6)
    ensures pool[5].state == READY && pool[5].wakeupEvent != E_CHILDDEATH
    ensures Alive(pool[..], 7) && pool[7].gid == 5
  {
    var s, rc;
    s, pool, rc := StaleMarkRun();
    w := Joins(pool);
    w := Twice(w);
    TwoUnlocks(s, pool);
  }

  /** The first unlock spares it, the second does not. */
  lemma Twice(w0: F.World) returns (w: F.World)
    requires F.Inv(w0, 6) && |w0.pool| == 8 && w0.pool[3].prio == w0.pool[5].prio
    requires w0.pcs[3] == F.Free && w0.pcs[5] == F.Joins(7)
    ensures w == With(w0, w0.pool[3 := Released(w0.pool[3])]) && F.Inv(w, 6)
    ensures !F.Inv(With(w, w.pool[5 := Released(w.pool[5])]), 6)
    ensures Released(w.pool[5]).state == READY
  {
    w := With(w0, w0.pool[3 := Released(w0.pool[3])]);
    BothPicked(w0.pool);
    UnlockKeepsInvIff(w0, 6, Sem(-2, [3, 5], true, 16));
    UnlockKeepsInvIff(w, 6, Sem(-1, [5], true, 16));
    assert F.Thread(w, 5) && Member(w.pool, 6, 5);
  }

  /** A mutex is locked by thread 1, and by thread 5. */
  method LockedTwice(pool: array<Tcb>) returns (m: M.PthreadMutex)
    requires Single(pool[..])
    modifies pool
    ensures fresh(m) && fresh(m.thread) && m.Valid() && m.Model() == M.M(1, [5])
    ensures pool[..] == old(pool[..])[5 := M.Blocked(old(pool[5]), 0)]
  {
    m := new M.PthreadMutex(0, 5, 8);
    var _ := m.LockPrimitive(pool, 1);
    var _ := m.LockPrimitive(pool, 5);
  }

  /** If it locks a mutex that is owned instead, they make it leave pthread_mutex_lock without
      the mutex. */
  method LockCutShort() returns (m: M.PthreadMutex, pool: array<Tcb>)
    ensures m.Valid() && m.Model() == M.M(1, [5])
    ensures pool.Length == 8 && pool[5].state == READY
  {
    var s, rc;
    s, pool, rc := StaleMarkRun();
    m := LockedTwice(pool);
    TwoUnlocks(s, pool);
  }
}
