/** What semaphores and mutexes do to the threads of the pool, as steps of the life cycle.

    The rings and the arrays of blocked threads may name threads that do not wait there any
    more; then an unlock can hit a thread that is in tk_join, or one that waits elsewhere. */
module Wakers {
  import opened Tcbs
  import opened Sems
  import opened Untimed
  import Family
  import F = FamilyRuns
  import M = Mutex

  function With(w: F.World, pool: seq<Tcb>): F.World {
    w.(pool := pool)
  }

  /** A thread that blocks in a semaphore takes a step of the life cycle. */
  lemma LockBlocks(w: F.World, idle: nat, s: Sem, t: nat, timed: bool, wake: int) returns (op: F.Op)
    requires F.Inv(w, idle) && F.Acts(w, idle, t) && Lock(s, w.pool, t, timed, wake).2
    ensures F.Next(w, idle, op, With(w, Lock(s, w.pool, t, timed, wake).1)) && F.Spares(w, op)
  {
    var x := w.pool[t];
    op := F.Block(t, true, timed, wake, x.bOn, if timed then x.wakeupEvent else E_NONE);
    assert Block(x, timed, wake) == F.Blocked(x, op);
  }

  /** So does one that blocks in a mutex. */
  lemma MutexBlocks(w: F.World, idle: nat, m: M.M, t: nat, id: nat) returns (op: F.Op)
    requires F.Inv(w, idle) && F.Acts(w, idle, t) && m.owner != NIL
    ensures F.Next(w, idle, op, With(w, M.Lock(m, w.pool, t, id).1)) && F.Spares(w, op)
  {
    var x := w.pool[t];
    op := F.Block(t, true, false, 0, OnMutex(id), x.wakeupEvent);
    assert M.Blocked(x, id) == F.Blocked(x, op);
  }

  /** The unlock of a semaphore keeps the life cycle in order exactly if it adds a unit, or
      picks a thread that is not in tk_join. */
  lemma UnlockKeepsInvIff(w: F.World, idle: nat, s: Sem)
    requires F.Inv(w, idle) && SemOk(s) && AllIn(s.waiters, |w.pool|)
    ensures F.Inv(With(w, Unlock(s, w.pool).1), idle) <==> s.token >= 0 || w.pcs[Pick(s, w.pool)] == F.Free
  {
    if s.token >= 0 {
      assert With(w, w.pool) == w;
    } else {
      F.StepKeepsInvIff(w, idle, F.Release(Pick(s, w.pool)), With(w, Unlock(s, w.pool).1));
    }
  }

  /** A thread that queues is not in tk_join. */
  lemma QueueingIsFree(w: F.World, idle: nat, t: nat)
    requires F.Inv(w, idle) && t < |w.pool| && w.pool[t].state.queue
    ensures w.pcs[t] == F.Free
  {
    assert F.Thread(w, t) && Family.Member(w.pool, idle, t);
  }

  /** If all its waits are untimed it does. */
  lemma UntimedKeepsInv(w: F.World, idle: nat, s: Sem)
    requires F.Inv(w, idle) && Queueing(s, w.pool)
    ensures F.Inv(With(w, Unlock(s, w.pool).1), idle)
  {
    if s.token < 0 {
      var j := UnlockReleasesOne(s, w.pool);
      QueueingIsFree(w, idle, s.waiters[j]);
    }
    UnlockKeepsInvIff(w, idle, s);
  }

  /** The same for the unlock of a mutex. */
  lemma MutexKeepsInvIff(w: F.World, idle: nat, m: M.M)
    requires F.Inv(w, idle) && AllIn(m.blocked, |w.pool|)
    ensures F.Inv(With(w, M.Unlock(m, w.pool).1), idle) <==>
      m.blocked == [] || w.pcs[m.blocked[FirstMin(m.blocked, w.pool)]] == F.Free
  {
    if m.blocked == [] {
      assert With(w, w.pool) == w;
    } else {
      var t := m.blocked[FirstMin(m.blocked, w.pool)];
      F.StepKeepsInvIff(w, idle, F.Wake(t), With(w, M.Unlock(m, w.pool).1));
    }
  }

  lemma {:induction false} WokenAllAt(pool: seq<Tcb>, ws: seq<int>, u: nat)
    requires AllIn(ws, |pool|) && u < |pool|
    ensures M.WokenAll(pool, ws)[u] == if u in ws then Woken(pool[u]) else pool[u]
  {
    if ws != [] {
      var n := |ws| - 1;
      WokenAllAt(pool, ws[..n], u);
      assert ws == ws[..n] + [ws[n]];
    }
  }

  lemma {:induction false} BroadcastSpares(w: F.World, idle: nat, ws: seq<int>)
    requires F.Inv(w, idle) && AllIn(ws, |w.pool|) && forall k :: 0 <= k < |ws| ==> w.pcs[ws[k]] == F.Free
    ensures F.Inv(With(w, M.WokenAll(w.pool, ws)), idle)
  {
    if ws == [] {
      assert With(w, w.pool) == w;
    } else {
      var n := |ws| - 1;
      BroadcastSpares(w, idle, ws[..n]);
      var v := With(w, M.WokenAll(w.pool, ws[..n]));
      F.StepKeepsInvIff(v, idle, F.Wake(ws[n]), With(w, M.WokenAll(w.pool, ws)));
    }
  }

  /** A broadcast keeps the life cycle in order exactly if it finds nobody in tk_join. */
  lemma BroadcastKeepsInvIff(w: F.World, idle: nat, ws: seq<int>)
    requires F.Inv(w, idle) && AllIn(ws, |w.pool|)
    ensures F.Inv(With(w, M.WokenAll(w.pool, ws)), idle) <==> forall k :: 0 <= k < |ws| ==> w.pcs[ws[k]] == F.Free
  {
    if forall k :: 0 <= k < |ws| ==> w.pcs[ws[k]] == F.Free {
      BroadcastSpares(w, idle, ws);
    } else {
      var k :| 0 <= k < |ws| && w.pcs[ws[k]] != F.Free;
      WokenAllAt(w.pool, ws, ws[k]);
      assert F.Thread(w, ws[k]);
      assert !F.Thread(With(w, M.WokenAll(w.pool, ws)), ws[k]);
    }
  }

  lemma {:induction false} SweepKeepsInv(w: F.World, idle: nat, ws: seq<int>, k: nat)
    requires F.Inv(w, idle) && AllIn(ws, |w.pool|) && k <= |ws|
    ensures F.Inv(With(w, Sweep(ws, w.pool, k).1), idle)
    decreases |ws| - k
  {
    if k == |ws| {
      assert With(w, w.pool) == w;
    } else {
      var o := SweepOne(ws, w.pool, k);
      var v := With(w, o.1);
      if Lapsed(w.pool[ws[k]]) {
        F.StepKeepsInvIff(w, idle, F.Note(ws[k]), v);
      }
      if o.2 != |o.0| {
        SweepKeepsInv(v, idle, o.0, o.2 + 1);
      }
    }
  }

  /** Whatever a timed-out thread does to the ring and to others, it disturbs no join. */
  lemma ResumeKeepsInv(w: F.World, idle: nat, s: Sem, t: nat, d: nat)
    requires F.Inv(w, idle) && SemOk(s) && AllIn(s.waiters, |w.pool|) && t < |w.pool|
    ensures F.Inv(With(w, Resume(s, w.pool, t, d).1), idle)
  {
    assert With(w, w.pool) == w;
    if s.token < -1 {
      var v := Victim(d, |s.waiters|);
      RemoveAtIn(s.waiters, v, |w.pool|);
      SweepKeepsInv(w, idle, RemoveAt(s.waiters, v), 0);
    }
  }

  /** The unlock of a semaphore leaves those who wait for a mutex queueing exactly if it picks
      none of them. */
  lemma UnlockKeepsBlockedIff(s: Sem, pool: seq<Tcb>, blocked: seq<int>)
    requires SemOk(s) && AllIn(s.waiters, |pool|) && AllIn(blocked, |pool|)
    requires forall k :: 0 <= k < |blocked| ==> pool[blocked[k]].state.queue
    ensures (forall k :: 0 <= k < |blocked| ==> Unlock(s, pool).1[blocked[k]].state.queue)
            <==> s.token >= 0 || Pick(s, pool) !in blocked
  {
    if s.token < 0 && Pick(s, pool) in blocked {
      var k :| 0 <= k < |blocked| && blocked[k] == Pick(s, pool);
      assert !Unlock(s, pool).1[blocked[k]].state.queue;
    }
  }
}
