/** Counting semaphores as values: the token, the threads in the ring, and what the lock and
    unlock stages do to them. */
module Sems {
  import opened Tcbs

  datatype Code =
    | ERR_OK | ERR_TIMEOUT | ERR_BLOCKLIMIT | ERR_OBJDEL | ERR_OBJTYPE
    | ERR_NOSEM | ERR_FULL | ERR_OBJFULL | ERR_NOMEM

  datatype Kind = SEM | S_QUEUE | V_QUEUE

  /** The lock stage either returns, or gives up the processor with its ring mark saved. */
  datatype LockOutcome = Returned(rc: Code) | Blocked(mark: nat)

  /** What a semaphore is, apart from where its ring lies in memory. */
  datatype Sem = Sem(token: int, waiters: seq<int>, prior: bool, cap: nat)

  /** Token and ring agree, and the ring is never full. */
  ghost predicate SemOk(s: Sem) {
    && |s.waiters| < s.cap
    && |s.waiters| == if s.token < 0 then -s.token else 0
  }

  function Block(t: Tcb, timed: bool, wake: int): Tcb {
    if timed then t.(state := t.state.(queue := true, sleep := true), wakeuptime := wake)
    else t.(state := t.state.(queue := true), wakeupEvent := E_NONE)
  }

  /** Entering the lock stage; the result says whether the caller blocks. */
  function Lock(s: Sem, pool: seq<Tcb>, self: int, timed: bool, wake: int): (r: (Sem, seq<Tcb>, bool, Code))
    requires 0 <= self < |pool|
  {
    if s.token > 0 then (s.(token := s.token - 1), pool, false, ERR_OK)
    else if -s.token < s.cap - 1 then
      (s.(token := s.token - 1, waiters := s.waiters + [self]),
       pool[self := Block(pool[self], timed, wake)], true, ERR_OK)
    else (s, pool, false, ERR_BLOCKLIMIT)
  }

  /** The waiter a FIFO unlock releases: the oldest one still queueing, or the last. */
  ghost predicate IsFifoPick(ws: seq<int>, pool: seq<Tcb>, k: nat)
    requires AllIn(ws, |pool|)
  {
    && k < |ws|
    && (forall i :: 0 <= i < k ==> !pool[ws[i]].state.queue)
    && (pool[ws[k]].state.queue || k == |ws| - 1)
  }

  function FifoPick(ws: seq<int>, pool: seq<Tcb>): (k: nat)
    requires |ws| > 0 && AllIn(ws, |pool|)
    ensures IsFifoPick(ws, pool, k)
  {
    if pool[ws[0]].state.queue || |ws| == 1 then 0
    else
      var k := FifoPick(ws[1..], pool);
      assert forall i :: 0 < i < |ws| ==> ws[i] == ws[1..][i - 1];
      k + 1
  }

  lemma FifoPickUnique(ws: seq<int>, pool: seq<Tcb>, k: nat)
    requires |ws| > 0 && AllIn(ws, |pool|) && IsFifoPick(ws, pool, k)
    ensures k == FifoPick(ws, pool)
  {
  }

  /** The thread an unlock releases when threads are blocked. */
  function Pick(s: Sem, pool: seq<Tcb>): (t: int)
    requires |s.waiters| > 0 && AllIn(s.waiters, |pool|)
    ensures t in s.waiters && 0 <= t < |pool|
  {
    s.waiters[if s.prior then FirstMin(s.waiters, pool) else FifoPick(s.waiters, pool)]
  }

  function Unlock(s: Sem, pool: seq<Tcb>): (r: (Sem, seq<Tcb>))
    requires SemOk(s) && AllIn(s.waiters, |pool|)
  {
    if s.token >= 0 then (s.(token := s.token + 1), pool)
    else
      var t := Pick(s, pool);
      var pool' := pool[t := Released(pool[t])];
      if s.prior then
        (s.(token := s.token + 1, waiters := RemoveAt(s.waiters, FirstMin(s.waiters, pool))), pool')
      else
        var k := FifoPick(s.waiters, pool);
        (s.(token := s.token + k + 1, waiters := s.waiters[k + 1..]), pool')
  }

  /** Which waiter `_itc_removeBlocked` removes when called on the slot `d` steps after the
      out-cursor: the one in that slot if it is occupied, the last one for the slot at the
      in-cursor, and the first one for any other unoccupied slot. */
  function Victim(d: nat, n: nat): (v: nat)
    requires n > 0
    ensures v < n
  {
    if d < n then d else if d == n then n - 1 else 0
  }

  /** One round of the clean-up sweep of a timed-out thread: a waiter that also timed out is
      told so (E_ITC2) and removed.  The last result is the position the sweep is at, counted
      from the out-cursor, which a removal at the head moves past it. */
  function SweepOne(ws: seq<int>, pool: seq<Tcb>, k: nat): (r: (seq<int>, seq<Tcb>, int))
    requires AllIn(ws, |pool|) && k < |ws|
    ensures |ws| - 1 <= |r.0| <= |ws| && |r.1| == |pool| && AllIn(r.0, |pool|)
    ensures -1 <= r.2 <= k && |r.0| - r.2 <= |ws| - k && r.2 <= |r.0|
  {
    var t := pool[ws[k]];
    if Lapsed(t) then
      (RemoveAt(ws, k), pool[ws[k] := Noted(t)], if k == 0 then -1 else k)
    else (ws, pool, k)
  }

  /** The sweep from position `k` on.  After a removal in the middle it steps over the waiter
      that moved into the freed slot, and a removal at the tail ends it. */
  function Sweep(ws: seq<int>, pool: seq<Tcb>, k: nat): (r: (seq<int>, seq<Tcb>))
    requires AllIn(ws, |pool|) && k <= |ws|
    ensures |r.0| <= |ws| && |r.1| == |pool| && AllIn(r.0, |r.1|)
    decreases |ws| - k
  {
    if k == |ws| then (ws, pool)
    else
      var o := SweepOne(ws, pool, k);
      if o.2 == |o.0| then (o.0, o.1) else Sweep(o.0, o.1, o.2 + 1)
  }

  /** A timed-out thread takes a waiter from the ring, and so do the others it finds timed
      out; `d` is the distance of its marked slot from the out-cursor. */
  function GivenUp(s: Sem, pool: seq<Tcb>, d: nat): (r: (Sem, seq<Tcb>))
    requires SemOk(s) && AllIn(s.waiters, |pool|) && s.token < 0
  {
    var ws := RemoveAt(s.waiters, Victim(d, |s.waiters|));
    if s.token + 1 >= 0 then (s.(token := s.token + 1, waiters := ws), pool)
    else
      var r := Sweep(ws, pool, 0);
      (s.(token := -|r.0|, waiters := r.0), r.1)
  }

  /** What a thread blocked with a time limit does when it runs again. */
  function Resume(s: Sem, pool: seq<Tcb>, self: int, d: nat): (r: (Sem, seq<Tcb>, Code))
    requires SemOk(s) && AllIn(s.waiters, |pool|) && 0 <= self < |pool|
  {
    if pool[self].wakeupEvent == E_TIMER then
      if s.token >= 0 then (s, pool, ERR_TIMEOUT)
      else
        var g := GivenUp(s, pool, d);
        (g.0, g.1, ERR_TIMEOUT)
    else if pool[self].wakeupEvent == E_ITC2 then (s, pool, ERR_TIMEOUT)
    else (s, pool, ERR_OK)
  }
}

/** Semaphores on which every wait is untimed. */
module Untimed {
  import opened Tcbs
  import opened Sems

  /** With every waiter queueing, an unlock releases exactly one of them, and that one had
      the Q bit and loses it. */
  lemma UnlockReleasesOne(s: Sem, pool: seq<Tcb>) returns (j: nat)
    requires SemOk(s) && AllIn(s.waiters, |pool|) && s.token < 0
    requires forall k :: 0 <= k < |s.waiters| ==> pool[s.waiters[k]].state.queue
    ensures j < |s.waiters| && Pick(s, pool) == s.waiters[j]
    ensures s.prior ==> IsFirstMin(s.waiters, pool, j)
    ensures !s.prior ==> j == 0
    ensures Unlock(s, pool).0 == s.(token := s.token + 1, waiters := RemoveAt(s.waiters, j))
    ensures Unlock(s, pool).1 == pool[s.waiters[j] := Released(pool[s.waiters[j]])]
  {
    j := if s.prior then FirstMin(s.waiters, pool) else FifoPick(s.waiters, pool);
  }

  /** Every blocked thread is blocked once and has its Q bit set: the state of a semaphore
      on which all waits are untimed. */
  ghost predicate Queueing(s: Sem, pool: seq<Tcb>) {
    && SemOk(s) && AllIn(s.waiters, |pool|) && Distinct(s.waiters)
    && forall k :: 0 <= k < |s.waiters| ==> pool[s.waiters[k]].state.queue
  }

  lemma LockKeepsQueueing(s: Sem, pool: seq<Tcb>, t: int)
    requires Queueing(s, pool) && 0 <= t < |pool| && !pool[t].state.queue
    ensures Queueing(Lock(s, pool, t, false, 0).0, Lock(s, pool, t, false, 0).1)
  {
    assert t !in s.waiters;
    AppendDistinct(s.waiters, t);
  }

  lemma OthersStillQueue(ws: seq<int>, pool: seq<Tcb>, j: nat, t: Tcb)
    requires j < |ws| && AllIn(ws, |pool|) && Distinct(ws)
    requires forall k :: 0 <= k < |ws| ==> pool[ws[k]].state.queue
    ensures var ws', pool' := RemoveAt(ws, j), pool[ws[j] := t];
      && AllIn(ws', |pool'|) && Distinct(ws')
      && forall k :: 0 <= k < |ws'| ==> pool'[ws'[k]].state.queue
  {
    RemoveAtDistinct(ws, j);
    RemoveAtIn(ws, j, |pool|);
  }

  lemma UnlockKeepsQueueing(s: Sem, pool: seq<Tcb>)
    requires Queueing(s, pool)
    ensures Queueing(Unlock(s, pool).0, Unlock(s, pool).1)
  {
    if s.token < 0 {
      var j := UnlockReleasesOne(s, pool);
      var t := Released(pool[s.waiters[j]]);
      OthersStillQueue(s.waiters, pool, j, t);
      assert Unlock(s, pool) == (s.(token := s.token + 1, waiters := RemoveAt(s.waiters, j)), pool[s.waiters[j] := t]);
    }
  }
}
