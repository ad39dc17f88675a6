/** POSIX mutexes: ownership is handed over to a waiter on unlock. */
module Mutex {
  import opened Tcbs

  /** A mutex: its owner, or NIL, and the blocked threads in order of arrival. */
  datatype M = M(owner: int, blocked: seq<int>)

  function Blocked(t: Tcb, id: nat): Tcb {
    t.(bOn := OnMutex(id), state := t.state.(queue := true))
  }

  function Lock(m: M, pool: seq<Tcb>, self: int, id: nat): (M, seq<Tcb>)
    requires 0 <= self < |pool|
  {
    if m.owner == NIL then (m.(owner := self), pool)
    else (m.(blocked := m.blocked + [self]), pool[self := Blocked(pool[self], id)])
  }

  function Unlock(m: M, pool: seq<Tcb>): (M, seq<Tcb>)
    requires AllIn(m.blocked, |pool|)
  {
    if m.blocked == [] then (m.(owner := NIL), pool)
    else
      var j := FirstMin(m.blocked, pool);
      var next := m.blocked[j];
      (M(next, RemoveAt(m.blocked, j)), pool[next := Woken(pool[next])])
  }

  /** Everybody in `ws` is woken; nobody else changes. */
  function WokenAll(pool: seq<Tcb>, ws: seq<int>): (r: seq<Tcb>)
    requires AllIn(ws, |pool|)
    ensures |r| == |pool|
  {
    if ws == [] then pool
    else
      var n := |ws| - 1;
      var p := WokenAll(pool, ws[..n]);
      p[ws[n] := Woken(p[ws[n]])]
  }

  class PthreadMutex {
    const id: nat
    const levels: nat             // TK_MAX_PRIO_LEVELS
    const thread: array<int>      // blocked.thread, _PTHREADS_MAX_BLOCKED slots
    var owner: int
    var numb: nat                 // blocked.numb

    /** A mutex without an owner has nobody waiting. */
    ghost predicate Valid()
      reads this, thread
    {
      numb <= thread.Length && (owner == NIL ==> numb == 0)
    }

    ghost function Model(): M
      requires Valid()
      reads this, thread
    {
      M(owner, thread[..numb])
    }

    ghost predicate Serves(pool: array<Tcb>)
      reads this, thread, pool
    {
      && Valid() && AllIn(thread[..numb], pool.Length)
      && forall k :: 0 <= k < numb ==> pool[thread[k]].prio < levels
    }

    /** PTHREAD_MUTEX_INITIALIZER. */
    constructor (id: nat, levels: nat, maxBlocked: nat)
      ensures Valid() && Model() == M(NIL, []) && thread.Length == maxBlocked && fresh(thread)
      ensures this.id == id && this.levels == levels
    {
      this.id := id;
      this.levels := levels;
      thread := new int[maxBlocked](_ => NIL);
      owner, numb := NIL, 0;
    }

    /** _mutex_lock_primitive; the result says whether the caller must yield. */
    method LockPrimitive(pool: array<Tcb>, self: int) returns (rc: bool)
      requires Valid() && 0 <= self < pool.Length && numb < thread.Length
      modifies this`owner, this`numb, thread, pool
      ensures Valid()
      ensures Model() == old(Lock(Model(), pool[..], self, id)).0
      ensures pool[..] == old(Lock(Model(), pool[..], self, id)).1
      ensures rc <==> old(owner) != NIL
      ensures !rc ==> owner == self && numb == 0 && pool[..] == old(pool[..])
      ensures rc ==>
        && owner == old(owner) && thread[..numb] == old(thread[..numb]) + [self]
        && var x := old(pool[self]); pool[self] == x.(state := x.state.(queue := true), bOn := OnMutex(id))
    {
      rc := false;
      if owner == NIL {
        owner := self;
        numb := 0;
      } else {
        pool[self] := pool[self].(bOn := OnMutex(id));
        pool[self] := pool[self].(state := pool[self].state.(queue := true));
        thread[numb] := self;
        numb := numb + 1;
        assert thread[..numb] == old(thread[..numb]) + [self];
        rc := true;
      }
    }

    /** The search for the next owner. */
    method FindNext(pool: array<Tcb>) returns (j: nat)
      requires Serves(pool) && numb > 0
      ensures j < numb && j == FirstMin(thread[..numb], pool[..])
    {
      var prio := levels;
      j := 0;
      for i := 0 to numb
        invariant i == 0 ==> prio == levels
        invariant i > 0 ==>
          && j < i && prio == pool[thread[j]].prio
          && (forall k :: 0 <= k < i ==> prio <= pool[thread[k]].prio)
          && (forall k :: 0 <= k < j ==> prio < pool[thread[k]].prio)
      {
        if pool[thread[i]].prio < prio {
          j := i;
          prio := pool[thread[i]].prio;
        }
      }
      FirstMinUnique(thread[..numb], pool[..], j);
    }

    /** The loop that closes the gap; it reads one slot past the live ones. */
    method CloseGap(j: nat)
      requires j < numb < thread.Length
      modifies thread
      ensures thread[..numb - 1] == RemoveAt(old(thread[..numb]), j)
    {
      var i := j;
      while i < numb
        invariant j <= i <= numb
        invariant forall k :: 0 <= k < thread.Length ==>
          thread[k] == if j <= k < i then old(thread[k + 1]) else old(thread[k])
      {
        thread[i] := thread[i + 1];
        i := i + 1;
      }
    }

    /** _mutex_unlock_primitive(BSINGLE). */
    method UnlockPrimitive(pool: array<Tcb>) returns (rc: bool)
      requires Serves(pool) && numb < thread.Length
      modifies this`owner, this`numb, thread, pool
      ensures Valid()
      ensures Model() == old(Unlock(Model(), pool[..])).0
      ensures pool[..] == old(Unlock(Model(), pool[..])).1
      ensures rc <==> old(numb) > 0
      ensures !rc ==> owner == NIL && numb == 0 && pool[..] == old(pool[..])
      ensures rc ==>
        && numb == old(numb) - 1 && 0 <= owner < pool.Length
        && var x := old(pool[..])[owner];
           pool[owner] == x.(state := x.state.(queue := false), bOn := OnSched(NIL), wakeupEvent := E_ITC)
    {
      if owner == NIL {
        assert numb == 0;
        return false;
      }
      if numb == 0 {
        owner := NIL;
        return false;
      }
      var j := FindNext(pool);
      var newOwner := thread[j];
      CloseGap(j);
      owner := newOwner;
      numb := numb - 1;
      pool[newOwner] := pool[newOwner].(bOn := OnSched(NIL));
      pool[newOwner] := pool[newOwner].(state := pool[newOwner].state.(queue := false));
      pool[newOwner] := pool[newOwner].(wakeupEvent := E_ITC);
      rc := true;
    }

    /** _mutex_unlock_primitive(BCAST): everybody is woken and the owner stays. */
    method Broadcast(pool: array<Tcb>) returns (rc: bool)
      requires Serves(pool)
      modifies this`owner, this`numb, pool
      ensures Valid() && (rc <==> old(numb) > 0)
      ensures Model() == M(if old(numb) == 0 then NIL else old(owner), [])
      ensures pool[..] == WokenAll(old(pool[..]), old(thread[..numb]))
    {
      if owner == NIL {
        return false;
      }
      if numb == 0 {
        owner := NIL;
        return false;
      }
      ghost var ws := thread[..numb];
      for i := 0 to numb
        invariant numb == old(numb) && owner == old(owner) && AllIn(ws, pool.Length)
        invariant pool[..] == WokenAll(old(pool[..]), ws[..i])
      {
        assert ws[..i + 1][..i] == ws[..i];
        var t := thread[i];
        pool[t] := pool[t].(bOn := OnSched(NIL));
        pool[t] := pool[t].(state := pool[t].state.(queue := false));
        pool[t] := pool[t].(wakeupEvent := E_ITC);
      }
      assert ws[..numb] == ws;
      numb := 0;
      rc := true;
    }
  }
}

/** Whole runs of pthread_mutex_lock and pthread_mutex_unlock in which only the owner unlocks
    and does not lock again. */
module MutexRuns {
  import opened Tcbs
  import opened Mutex

  /** Where a thread is: not between lock and unlock, blocked in lock, or past it. */
  datatype Pc = Outside | Waiting | Inside

  datatype World = World(m: M, pool: seq<Tcb>, pcs: seq<Pc>)

  /** `Elsewhere` is anything that happens to the threads outside this mutex, priority changes
      included. */
  datatype Op = DoLock(t: int) | DoUnlock(t: int) | Elsewhere(pool: seq<Tcb>)

  ghost predicate Next(w: World, op: Op, w': World, id: nat) {
    match op
    case DoLock(t) =>
      && 0 <= t < |w.pool| == |w.pcs| && w.pool[t].state == READY && w.pcs[t] == Outside
      && var (m', pool') := Lock(w.m, w.pool, t, id);
         w' == World(m', pool', w.pcs[t := if w.m.owner == NIL then Inside else Waiting])
    case DoUnlock(t) =>
      && 0 <= t < |w.pool| == |w.pcs| && w.pool[t].state == READY && w.pcs[t] == Inside
      && AllIn(w.m.blocked, |w.pool|)
      && var (m', pool') := Unlock(w.m, w.pool);
         var pcs := w.pcs[t := Outside];
         w' == World(m', pool', if 0 <= m'.owner < |pcs| then pcs[m'.owner := Inside] else pcs)
    case Elsewhere(pool) => |pool| == |w.pool| && w' == w.(pool := pool)
  }

  /** Whatever happens elsewhere leaves the threads blocked here queueing. */
  ghost predicate Spares(w: World, op: Op) {
    op.Elsewhere? && AllIn(w.m.blocked, |op.pool|) ==>
      forall k :: 0 <= k < |w.m.blocked| ==> op.pool[w.m.blocked[k]].state.queue
  }

  ghost predicate Inv(w: World) {
    && |w.pcs| == |w.pool|
    && (w.m.owner == NIL ==> w.m.blocked == [])
    && (w.m.owner != NIL ==> 0 <= w.m.owner < |w.pool|)
    && AllIn(w.m.blocked, |w.pool|) && Distinct(w.m.blocked) && w.m.owner !in w.m.blocked
    && (forall k :: 0 <= k < |w.m.blocked| ==> w.pool[w.m.blocked[k]].state.queue)
    && (forall t :: 0 <= t < |w.pool| ==> (w.pcs[t] == Inside <==> t == w.m.owner))
    && (forall t :: 0 <= t < |w.pool| ==> (w.pcs[t] == Waiting <==> t in w.m.blocked))
  }

  ghost predicate Init(w: World) {
    && w.m == M(NIL, []) && |w.pcs| == |w.pool|
    && forall t :: 0 <= t < |w.pcs| ==> w.pcs[t] == Outside
  }

  lemma LockKeepsInv(w: World, t: int, w': World, id: nat)
    requires Inv(w) && Next(w, DoLock(t), w', id)
    ensures Inv(w')
  {
    AppendDistinct(w.m.blocked, t);
  }

  lemma UnlockKeepsInv(w: World, t: int, w': World, id: nat)
    requires Inv(w) && Next(w, DoUnlock(t), w', id)
    ensures Inv(w')
  {
    if w.m.blocked != [] {
      var j := FirstMin(w.m.blocked, w.pool);
      RemoveAtDistinct(w.m.blocked, j);
      RemoveAtIn(w.m.blocked, j, |w.pool|);
    }
  }

  /** Locking and unlocking keep everything in order; what happens elsewhere does exactly if it
      leaves the blocked threads queueing. */
  lemma StepKeepsInvIff(w: World, op: Op, w': World, id: nat)
    requires Inv(w) && Next(w, op, w', id)
    ensures Inv(w') <==> Spares(w, op)
  {
    match op
    case DoLock(t) => LockKeepsInv(w, t, w', id);
    case DoUnlock(t) => UnlockKeepsInv(w, t, w', id);
    case Elsewhere(_) =>
  }

  ghost predicate Run(ws: seq<World>, ops: seq<Op>, id: nat) {
    |ws| == |ops| + 1 && forall i :: 0 <= i < |ops| ==> Next(ws[i], ops[i], ws[i + 1], id)
  }

  /** In every state of every run that leaves blocked threads queueing: an unowned mutex has no
      waiters, waiters are distinct, are not the owner and have the Q bit set, and at most one
      thread is past the lock. */
  lemma {:induction false} MutualExclusion(ws: seq<World>, ops: seq<Op>, id: nat, n: nat)
    requires Run(ws, ops, id) && Init(ws[0]) && n <= |ops|
    requires forall i :: 0 <= i < n ==> Spares(ws[i], ops[i])
    ensures Inv(ws[n])
    ensures forall t, u :: 0 <= t < u < |ws[n].pcs| ==> !(ws[n].pcs[t] == Inside && ws[n].pcs[u] == Inside)
  {
    if n > 0 {
      MutualExclusion(ws, ops, id, n - 1);
      StepKeepsInvIff(ws[n - 1], ops[n - 1], ws[n], id);
    }
  }

  /** An unlock hands the mutex to the waiter with the numerically lowest priority, the one
      waiting longest among equals, and keeps the others in their order. */
  lemma HandOver(w: World, t: int, w': World, id: nat) returns (j: nat)
    requires Inv(w) && Next(w, DoUnlock(t), w', id) && w.m.blocked != []
    ensures IsFirstMin(w.m.blocked, w.pool, j)
    ensures w'.m.owner == w.m.blocked[j] && w'.m.blocked == RemoveAt(w.m.blocked, j)
    ensures w'.pcs[w'.m.owner] == Inside && !w'.pool[w'.m.owner].state.queue
  {
    j := FirstMin(w.m.blocked, w.pool);
  }

  lemma {:induction false} Pigeons(ws: seq<int>, n: nat)
    requires AllIn(ws, n) && Distinct(ws)
    ensures |ws| <= n
    decreases n
  {
    if ws != [] {
      assert 0 <= ws[0] < n;
      if n - 1 in ws {
        var k :| 0 <= k < |ws| && ws[k] == n - 1;
        RemoveAtDistinct(ws, k);
        Pigeons(RemoveAt(ws, k), n - 1);
      } else {
        Pigeons(ws, n - 1);
      }
    }
  }

  /** The array of blocked threads, with room for every thread, is never filled: neither
      lock's store nor the read past the live slots in unlock leaves it. */
  lemma NeverFull(w: World)
    requires Inv(w) && w.m.owner != NIL
    ensures |w.m.blocked| < |w.pool|
  {
    AppendDistinct(w.m.blocked, w.m.owner);
    Pigeons(w.m.blocked + [w.m.owner], |w.pool|);
  }
}
