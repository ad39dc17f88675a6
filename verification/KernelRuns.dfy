/** What tk_join hands out after its wait, and runs in which the kernel falls short. */
module KernelRuns {
  import opened Tcbs
  import opened Family
  import opened FamilyKept
  import opened Schedule
  import opened JoinRuns
  import F = FamilyRuns
  import K = Kernel

  /** The rest of tk_join, once the wait is over, in any run that hits nobody who is in tk_join:
      the event is the one asserted, and the caller gets the value with which the child it
      waited for died in step `d`. */
  method JoinReturns(k: K.Kernel, ghost ws: seq<F.World>, ghost ops: seq<F.Op>, ghost n: nat)
      returns (v: int, ghost d: nat)
    requires Run(ws, k.idle, ops) && n <= |ops| && Sparing(ws, ops, n) && ws[n].pool == k.pool[..]
    requires k.active < k.pool.Length && k.active < |ws[n].pcs| && ws[n].pcs[k.active].Joined?
    ensures v == ws[n].pcs[k.active].v
    ensures d < n && DiesAwaited(ws, ops, d, k.active, ws[n].pcs[k.active].child, v)
  {
    ghost var pc := ws[n].pcs[k.active];
    d := JoinReturnsDeathValue(ws, k.idle, ops, n, k.active, pc.child, pc.v);
    assert k.pool[k.active].wakeupEvent == E_CHILDDEATH;
    v := k.pool[k.active].retval;
  }

  /** tk_msleep, with a whole pass of the timer at `now`: the thread is ready afterwards, with
      E_TIMER, exactly if its time has come. */
  method SleepFor(k: K.Kernel, wakeuptime: int, now: int)
    requires k.Valid() && Fam(k.pool[..], k.idle) && Roomy(k.pool[..], k.rows, k.schedule.Length1)
    requires k.pool[k.active].valid && k.pool[k.active].state == READY && k.active != k.idle
    modifies k, k.pool, k.slotOf, k.schedule, k.atPrio, k.currIdx
    ensures k.Valid() && Fam(k.pool[..], k.idle)
    ensures var x := k.pool[old(k.active)];
      && x.valid
      && if now >= wakeuptime then x.state == READY && x.wakeupEvent == E_TIMER
         else x.state == Bits(false, false, true, false) && x.wakeuptime == wakeuptime
  {
    ghost var was := k.pool[..];
    AsleepFits(was, k.rows, k.schedule.Length1, k.idle, k.active, wakeuptime, now);
    k.Msleep(wakeuptime);
    Pass(k, now, k.active);
  }

  lemma AsleepFits(pool: seq<Tcb>, rows: seq<seq<int>>, width: nat, idle: nat, a: nat, wakeuptime: int, now: int)
    requires Fam(pool, idle) && Roomy(pool, rows, width)
    requires a < |pool| && pool[a].valid && pool[a].state == READY && a != idle
    ensures var q := pool[a := Asleep(pool[a], wakeuptime)];
      Fam(q, idle) && K.Fits(q, rows, width, |q|, now, a)
  {
    var q := pool[a := Asleep(pool[a], wakeuptime)];
    F.LocalKeepsFam(pool, idle, a, q[a]);
    RoomyKept(pool, q, rows, rows, width);
    K.RoomyFits(q, rows, width, idle, |q|, now, a);
  }

  /** A whole pass for a thread that sleeps. */
  method Pass(k: K.Kernel, now: int, a: nat)
    requires k.Valid() && Fam(k.pool[..], k.idle) && a < k.pool.Length && k.pool[a].valid
    requires k.pool[a].state == Bits(false, false, true, false)
    requires K.Fits(k.pool[..], k.rows, k.schedule.Length1, k.pool.Length, now, k.active)
    modifies k, k.pool, k.slotOf, k.schedule, k.atPrio, k.currIdx
    ensures k.Valid() && Fam(k.pool[..], k.idle) && k.pool[a].valid
    ensures if now >= old(k.pool[a].wakeuptime) then k.pool[a].state == READY && k.pool[a].wakeupEvent == E_TIMER
      else k.pool[a].state == old(k.pool[a].state) && k.pool[a].wakeuptime == old(k.pool[a].wakeuptime)
  {
    ghost var was := k.pool[..];
    k.Yield(now, k.pool.Length);
    assert K.InTimeAt(was, k.pool[..], a, now);
  }

  lemma FreeIsFree(pool: seq<Tcb>, from: nat, t: nat)
    requires NextFree(pool, from, t)
    ensures t < |pool| && !pool[t].valid
  {
  }

  /** A new child of the root. */
  method Child(k: K.Kernel, prio: nat) returns (t: nat)
    requires k.Valid() && Fam(k.pool[..], k.idle) && k.active == 0
    requires k.procsInUse < k.pool.Length && prio < |k.rows| && |k.rows[prio]| < k.schedule.Length1
    modifies k, k.pool, k.slotOf, k.schedule, k.atPrio
    ensures k.Valid() && Fam(k.pool[..], k.idle) && k.idle == old(k.idle) && k.active == 0
    ensures 0 < t < k.pool.Length && t != k.idle && !old(k.pool[t].valid)
    ensures k.pool[..] == Created(old(k.pool[..]), t, 0, prio, 0)
    ensures k.rows == Entered(old(k.rows), prio, t) && k.procsInUse == old(k.procsInUse) + 1
  {
    ghost var was, from := k.pool[..], k.procIdx;
    var r := k.CreateThread(prio, 0, true, true);
    t := r.value;
    FreeIsFree(was, from, t);
    CreateKeepsFam(was, k.idle, t, 0, prio, 0);
    ValidsUpdate(was, t, k.pool[t]);
    ValidsSame(was[t := k.pool[t]], k.pool[..]);
  }

  /** A child of the root that nobody waits for becomes a zombie when it is deleted. */
  lemma DiesAttached(pool: seq<Tcb>, idle: nat, t: nat)
    requires Fam(pool, idle) && Alive(pool, t) && t != 0 && t != idle
    requires pool[t].gid == 0 && !pool[0].state.term
    ensures Fam(Deleted(pool, t).0, idle) && !Deleted(pool, t).1
    ensures var x := Deleted(pool, t).0[t];
      x == pool[t].(state := ZOMBI, noChilds := 0)
  {
    DiedAt(pool, idle, t, pool[t].retval);
    DeleteKeepsFamIff(pool, idle, t);
  }

  method OneChild() returns (k: K.Kernel, t: nat)
    ensures fresh(k) && fresh(k.pool) && fresh(k.slotOf) && fresh(k.schedule) && fresh(k.atPrio) && fresh(k.currIdx)
    ensures k.Valid() && Fam(k.pool[..], k.idle) && k.schedule.Length0 == 3
    ensures 0 < t < k.pool.Length && t != k.idle && Alive(k.pool[..], t)
    ensures k.pool[t].gid == 0 && k.pool[t].prio == 1 && !k.pool[0].state.term
  {
    k := new K.Kernel(3, 3, 2);
    t := Child(k, 1);
  }

  /** The root creates a thread and deletes it. */
  method DeletedOnce() returns (k: K.Kernel, t: nat)
    ensures fresh(k) && fresh(k.pool) && fresh(k.slotOf) && fresh(k.schedule) && fresh(k.atPrio) && fresh(k.currIdx)
    ensures k.Valid() && Fam(k.pool[..], k.idle) && k.schedule.Length0 == 3
    ensures t < k.pool.Length && Zombie(k.pool[..], t) && k.pool[t].gid == 0 && k.pool[t].prio == 1
  {
    k, t := OneChild();
    DiesAttached(k.pool[..], k.idle, t);
    var _ := k.DeleteThread(t);
  }

  /** Deleted a second time, a zombie is buried before the root has joined it: the root counts
      a child it does not have. */
  method DeletedTwice() returns (k: K.Kernel)
    ensures !Fam(k.pool[..], k.idle)
  {
    var t: nat;
    k, t := DeletedOnce();
    DeleteKeepsFamIff(k.pool[..], k.idle, t);
    var _ := k.DeleteThread(t);
  }

  /** Nobody sleeps, and nobody is dead. */
  ghost predicate Quiet(pool: seq<Tcb>) {
    forall t :: 0 <= t < |pool| && pool[t].valid ==> !pool[t].state.zombi && !pool[t].state.sleep
  }

  /** The timer finds nothing to do then. */
  lemma {:induction false} QuietTick(pool: seq<Tcb>, rows: seq<seq<int>>, n: nat, now: int, active: int)
    requires Gids(pool) && Quiet(pool) && n <= |pool|
    ensures Ticked(pool, n, now, active) == pool && K.RowsAfter(pool, rows, n, now, active) == rows
  {
    if n > 0 {
      QuietTick(pool, rows, n - 1, now, active);
      assert pool[n - 1 := TimedOut(pool[n - 1], now)] == pool;
    }
  }

  lemma QuietFits(pool: seq<Tcb>, rows: seq<seq<int>>, width: nat, n: nat, now: int, active: int)
    requires Gids(pool) && Quiet(pool) && n <= |pool|
    ensures K.Fits(pool, rows, width, n, now, active)
  {
    forall i | 0 <= i < n ensures K.FitsAt(pool, rows, width, i, now, active) {
      QuietTick(pool, rows, i, now, active);
      assert pool[i := TimedOut(pool[i], now)] == pool;
    }
  }

  /** Of `t` and `u`, children of the root, `u` is the only thread above priority 2 that is
      ready once the root waits for `t`. */
  ghost predicate Two(pool: seq<Tcb>, idle: nat, t: nat, u: nat) {
    && 0 < t < |pool| && 0 < u < |pool| && t != idle && u != t
    && Alive(pool, t) && pool[t].gid == 0 && pool[t].prio == 2
    && pool[u].valid && pool[u].state == READY && pool[u].prio == 1
    && forall x :: 1 <= x < |pool| && pool[x].valid && x != u ==> pool[x].prio > 1
  }

  /** Only the root and the idle thread are there, ready both. */
  ghost predicate Fresh(pool: seq<Tcb>) {
    && |pool| >= 2 && pool[0].valid && pool[1].valid && pool[1].prio > 1
    && forall x :: 0 <= x < |pool| && pool[x].valid ==> x < 2 && pool[x].state == READY
  }

  lemma TwoChildren(pool: seq<Tcb>, t: nat, u: nat)
    requires Fresh(pool) && t < |pool| && !pool[t].valid && u < |pool|
    requires var q := Created(pool, t, 0, 2, 0); !q[u].valid
    ensures var r := Created(Created(pool, t, 0, 2, 0), u, 0, 1, 0);
      Two(r, 1, t, u) && Quiet(r) && r[0].state == READY
  {
  }

  lemma RowsOf(t: int, u: int)
    ensures Entered([[0], [], [], [1]], 2, t) == [[0], [], [t], [1]]
    ensures Entered([[0], [], [t], [1]], 1, u) == [[0], [u], [t], [1]]
  {
    assert [] + [t] == [t] && [] + [u] == [u];
  }

  /** The idle thread of a new kernel has the last priority. */
  lemma IdleLast(k: K.Kernel)
    requires k.Valid() && |k.rows| == 4 && k.rows[3] == [1]
    ensures 1 < k.pool.Length && k.pool[1].valid && k.pool[1].prio == 3
  {
    assert SlotOk(k.pool[..], k.slotOf[..], k.rows, 3, 0);
  }

  method Small() returns (k: K.Kernel)
    ensures fresh(k) && fresh(k.pool) && fresh(k.slotOf) && fresh(k.schedule) && fresh(k.atPrio) && fresh(k.currIdx)
    ensures k.Valid() && Fam(k.pool[..], k.idle) && k.schedule.Length1 == 1 && k.rows == [[0], [], [], [1]]
    ensures k.active == 0 && k.idle == 1 && k.procsInUse == 2 && k.pool.Length == 4 && Fresh(k.pool[..])
  {
    k := new K.Kernel(4, 4, 1);
    IdleLast(k);
  }

  method FirstChild() returns (k: K.Kernel, t: nat, ghost was: seq<Tcb>)
    ensures fresh(k) && fresh(k.pool) && fresh(k.slotOf) && fresh(k.schedule) && fresh(k.atPrio) && fresh(k.currIdx)
    ensures k.Valid() && Fam(k.pool[..], k.idle) && k.schedule.Length1 == 1 && k.rows == [[0], [], [t], [1]]
    ensures k.active == 0 && k.idle == 1 && k.procsInUse == 3 && k.pool.Length == 4
    ensures Fresh(was) && t < |was| && !was[t].valid && k.pool[..] == Created(was, t, 0, 2, 0)
  {
    k := Small();
    was := k.pool[..];
    t := Child(k, 2);
    RowsOf(t, 0);
  }

  /** A thread that changes its priority leaves a full row, and the idle thread, first in the
      row behind, is taken in. */
  method SpilledByMove() returns (k: K.Kernel)
    ensures !k.Valid()
  {
    var t: nat;
    ghost var was: seq<Tcb>;
    k, t, was := FirstChild();
    var r := k.ChangePrio(t, 1);
  }

  /** The root creates `t` and, above it, `u`. */
  method Children() returns (k: K.Kernel, t: nat, u: nat)
    ensures fresh(k) && fresh(k.pool) && fresh(k.slotOf) && fresh(k.schedule) && fresh(k.atPrio) && fresh(k.currIdx)
    ensures k.Valid() && Fam(k.pool[..], k.idle) && k.schedule.Length1 == 1 && k.rows == [[0], [u], [t], [1]]
    ensures Two(k.pool[..], k.idle, t, u) && Quiet(k.pool[..])
    ensures k.active == 0 && k.idle == 1 && k.pool[0].valid && k.pool[0].state == READY
  {
    ghost var was: seq<Tcb>;
    k, t, was := FirstChild();
    u := Child(k, 1);
    RowsOf(t, u);
    TwoChildren(was, t, u);
  }

  /** The root waits for `t` then. */
  method Awaited() returns (k: K.Kernel, t: nat, u: nat)
    ensures fresh(k) && fresh(k.pool) && fresh(k.slotOf) && fresh(k.schedule) && fresh(k.atPrio) && fresh(k.currIdx)
    ensures k.Valid() && Fam(k.pool[..], k.idle) && k.schedule.Length1 == 1 && k.rows == [[0], [u], [t], [1]]
    ensures Two(k.pool[..], k.idle, t, u) && Quiet(k.pool[..]) && WaitsFor(k.pool[0], t)
  {
    k, t, u := Children();
    var _ := k.Join(t);
  }

  /** And `u` runs. */
  method Scheduled(k: K.Kernel, ghost t: nat, ghost u: nat, now: int)
    requires k.Valid() && Fam(k.pool[..], k.idle)
    requires Two(k.pool[..], k.idle, t, u) && Quiet(k.pool[..]) && WaitsFor(k.pool[0], t)
    modifies k, k.pool, k.slotOf, k.schedule, k.atPrio, k.currIdx
    ensures k.Valid() && k.idle == old(k.idle) && k.pool[..] == old(k.pool[..]) && k.rows == old(k.rows)
    ensures k.active == u
  {
    ghost var pool := k.pool[..];
    QuietFits(pool, k.rows, k.schedule.Length1, k.pool.Length, now, k.active);
    QuietTick(pool, k.rows, k.pool.Length, now, k.active);
    k.Yield(now, k.pool.Length);
    DispatchHighest(pool, k.slotOf[..], k.rows, k.currIdx[..], k.active, u);
  }

  lemma DiesAwaitedByRoot(pool: seq<Tcb>, idle: nat, t: nat)
    requires Fam(pool, idle) && Alive(pool, t) && t != 0 && t != idle
    requires pool[t].gid == 0 && WaitsFor(pool[0], t)
    ensures Fam(Deleted(pool, t).0, idle) && Deleted(pool, t).1
  {
    DiedAt(pool, idle, t, pool[t].retval);
    DeleteKeepsFamIff(pool, idle, t);
  }

  /** `u` deletes `t`.  As the root waits for it `t` is buried at once, and again its row was
      full. */
  method SpilledByDelete(now: int) returns (k: K.Kernel)
    ensures Fam(k.pool[..], k.idle) && !k.Valid()
  {
    var t, u: nat;
    k, t, u := Awaited();
    Scheduled(k, t, u, now);
    DiesAwaitedByRoot(k.pool[..], k.idle, t);
    var _ := k.DeleteThread(t);
  }
}
