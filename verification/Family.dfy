/** Parents and children: creation, death, join and burial, on the values in the thread pool.

    `gid` names the parent, or is -1.  A dead thread stays in the pool as a zombie until its
    parent has taken its return value or is gone; only then is it buried. */
module Family {
  import opened Tally
  import opened Tcbs

  /** Thread `i`, with control block `t`, is a child of `p`. */
  predicate Kid(t: Tcb, i: int, p: int) {
    i != p && t.valid && t.gid == p
  }

  function KidMarks(pool: seq<Tcb>, p: int): (r: seq<int>)
    ensures |r| == |pool| && forall i :: 0 <= i < |r| ==> r[i] == if Kid(pool[i], i, p) then 1 else 0
  {
    seq(|pool|, i requires 0 <= i < |pool| => if Kid(pool[i], i, p) then 1 else 0)
  }

  function Kids(pool: seq<Tcb>, p: int): int {
    Sum(KidMarks(pool, p))
  }

  lemma KidsUpdate(pool: seq<Tcb>, i: nat, x: Tcb, p: int)
    requires i < |pool|
    ensures Kids(pool[i := x], p) ==
      Kids(pool, p) - (if Kid(pool[i], i, p) then 1 else 0) + if Kid(x, i, p) then 1 else 0
  {
    var mark := if Kid(x, i, p) then 1 else 0;
    SumUpdate(KidMarks(pool, p), i, mark);
    assert KidMarks(pool[i := x], p) == KidMarks(pool, p)[i := mark];
  }

  lemma KidsSame(a: seq<Tcb>, b: seq<Tcb>, p: int)
    requires |a| == |b|
    requires forall i :: 0 <= i < |a| ==> Kid(a[i], i, p) == Kid(b[i], i, p)
    ensures Kids(a, p) == Kids(b, p)
  {
    assert KidMarks(a, p) == KidMarks(b, p);
  }

  lemma NoKids(pool: seq<Tcb>, p: int)
    ensures Kids(pool, p) >= 0
    ensures Kids(pool, p) == 0 <==> forall i :: 0 <= i < |pool| ==> !Kid(pool[i], i, p)
  {
    var m := KidMarks(pool, p);
    SumBits(m);
    assert forall i :: 0 <= i < |m| ==> (m[i] == 0 <==> !Kid(pool[i], i, p));
  }

  /** A pointer to a parent that may be followed. */
  predicate GidOk(t: Tcb, n: nat) {
    -1 <= t.gid < n
  }

  ghost predicate Gids(pool: seq<Tcb>) {
    forall i :: 0 <= i < |pool| ==> GidOk(pool[i], |pool|)
  }

  /** One step of the scan of _tk_detach_children. */
  function Scanned(pool: seq<Tcb>, t: nat, j: nat): (r: seq<Tcb>)
    requires t < |pool| && j < |pool|
    ensures |r| == |pool|
    ensures forall i :: 0 <= i < |r| ==> r[i].gid == pool[i].gid || r[i].gid == -1
  {
    if pool[j].valid && pool[j].gid == t then
      var q := pool[j := pool[j].(gid := -1)];
      q[t := q[t].(noChilds := q[t].noChilds - 1)]
    else pool
  }

  /** _tk_detach_children from index `j` of its scan on. */
  function Detach(pool: seq<Tcb>, t: nat, j: nat): (r: seq<Tcb>)
    requires t < |pool| && j <= |pool|
    ensures |r| == |pool|
    ensures forall i :: 0 <= i < |r| ==> r[i].gid == pool[i].gid || r[i].gid == -1
    decreases |pool| - j
  {
    if pool[t].noChilds > 0 && j < |pool| then Detach(Scanned(pool, t, j), t, j + 1) else pool
  }

  /** A parent that waited for `t` and is unblocked by its death. */
  function Unblocked(p: Tcb, t: int, v: int): Tcb {
    var s := p.state.(term := false);
    p.(state := s, wakeupEvent := E_CHILDDEATH, retval := v,
       bOn := if s == READY then OnSched(NIL) else OnSched(t))
  }

  predicate WaitsFor(p: Tcb, t: int) {
    p.state.term && p.bOn == OnSched(t)
  }

  /** _tk_try_detach_parent. */
  function TryDetach(pool: seq<Tcb>, t: nat, force: bool): (r: (seq<Tcb>, bool))
    requires t < |pool| && GidOk(pool[t], |pool|)
    ensures |r.0| == |pool|
    ensures forall i :: 0 <= i < |pool| ==> r.0[i].gid == pool[i].gid || r.0[i].gid == -1
  {
    var p := pool[t].gid;
    if p == -1 then (pool, true)
    else
      var waits := WaitsFor(pool[p], t);
      var q := if waits then pool[p := Unblocked(pool[p], t, pool[t].retval)] else pool;
      if waits || force then
        var q' := q[p := q[p].(noChilds := q[p].noChilds - 1)];
        (q'[t := q'[t].(gid := -1)], true)
      else (q, false)
  }

  /** The first half of a death, by return or by deletion. */
  function Died(pool: seq<Tcb>, t: nat, v: int): (r: seq<Tcb>)
    requires t < |pool|
    ensures |r| == |pool|
    ensures forall i :: 0 <= i < |r| ==> r[i].gid == pool[i].gid || r[i].gid == -1
  {
    Detach(pool[t := pool[t].(state := ZOMBI, retval := v)], t, 0)
  }

  /** tk_msleep, up to its yield. */
  function Asleep(t: Tcb, wakeuptime: int): Tcb {
    t.(state := t.state.(sleep := true), wakeuptime := wakeuptime)
  }

  function Buried(pool: seq<Tcb>, t: nat): (r: seq<Tcb>)
    requires t < |pool|
    ensures |r| == |pool|
  {
    pool[t := pool[t].(valid := false)]
  }

  /** tk_delete_thread of a valid thread, as far as the pool goes, and whether it is buried. */
  function Deleted(pool: seq<Tcb>, t: nat): (r: (seq<Tcb>, bool))
    requires t < |pool| && GidOk(pool[t], |pool|)
    ensures |r.0| == |pool|
  {
    if pool[t].state.zombi then (Buried(pool, t), true)
    else
      var (q, bury) := TryDetach(Died(pool, t, pool[t].retval), t, false);
      if bury then (Buried(q, t), true) else (q, false)
  }

  /** The timer's part of _tk_wakeup_timedout_threads for one thread. */
  function TimedOut(t: Tcb, now: int): Tcb {
    if t.valid && t.state.sleep && now - t.wakeuptime >= 0 then
      t.(state := t.state.(queue := false, sleep := false), wakeupEvent := E_TIMER)
    else t
  }

  /** What _tk_wakeup_timedout_threads does with thread `i`. */
  function TickOne(pool: seq<Tcb>, i: nat, now: int, active: int): (r: seq<Tcb>)
    requires i < |pool| && Gids(pool)
    ensures |r| == |pool| && Gids(r)
  {
    var q := pool[i := TimedOut(pool[i], now)];
    if q[i].valid && q[i].state.zombi && i != active then
      var (q', detached) := TryDetach(q, i, false);
      if detached then Buried(q', i) else q'
    else q
  }

  /** _tk_wakeup_timedout_threads up to index `n`: all threads, or fewer if an interrupt
      asks for a switch on the way. */
  function Ticked(pool: seq<Tcb>, n: nat, now: int, active: int): (r: seq<Tcb>)
    requires n <= |pool| && Gids(pool)
    ensures |r| == |pool| && Gids(r)
  {
    if n == 0 then pool else TickOne(Ticked(pool, n - 1, now, active), n - 1, now, active)
  }

  /** tk_create_thread by thread `a` in slot `t` of the pool. */
  function Created(pool: seq<Tcb>, t: nat, a: nat, prio: nat, arg: int): (r: seq<Tcb>)
    requires t < |pool| && a < |pool|
    ensures |r| == |pool|
  {
    var q := pool[t := Tcb(t, a, 0, true, READY, OnSched(NIL), pool[t].wakeuptime, E_NONE, arg, prio)];
    q[a := q[a].(noChilds := q[a].noChilds + 1)]
  }

  /** tk_join by `a` of a thread that still lives: wait for its death. */
  function Joining(pool: seq<Tcb>, a: nat, c: int): (r: seq<Tcb>)
    requires a < |pool|
    ensures |r| == |pool|
  {
    pool[a := pool[a].(bOn := OnSched(c), state := pool[a].state.(term := true))]
  }

  predicate Alive(pool: seq<Tcb>, t: int) {
    0 <= t < |pool| && pool[t].valid && !pool[t].state.zombi
  }

  /** What holds of thread `t`: its parent is alive, its count of children is right, if it
      waits in a join it waits for nothing else and for a valid child, and only the root and
      the idle thread are their own parents. */
  ghost predicate Member(pool: seq<Tcb>, idle: nat, t: nat)
    requires t < |pool|
  {
    pool[t].valid ==>
      && (pool[t].gid == -1 || Alive(pool, pool[t].gid))
      && pool[t].noChilds == Kids(pool, t)
      && (pool[t].state.term ==> pool[t].state == Bits(false, false, false, true) && WaitOk(pool, t))
      && (pool[t].gid == t ==> t == 0 || t == idle)
  }

  ghost predicate WaitOk(pool: seq<Tcb>, t: nat)
    requires t < |pool|
  {
    && pool[t].bOn.OnSched?
    && var c := pool[t].bOn.tcb;
       0 <= c < |pool| && pool[c].valid && pool[c].gid == t
  }

  /** The root lives, and the idle thread is ready, which it always is. */
  ghost predicate Fam(pool: seq<Tcb>, idle: nat) {
    && Alive(pool, 0) && Alive(pool, idle) && pool[idle].state == READY && Gids(pool)
    && forall t :: 0 <= t < |pool| ==> Member(pool, idle, t)
  }

  /** What _tk_detach_children comes to when the count of children is right. */
  ghost predicate Orphaned(a: seq<Tcb>, b: seq<Tcb>, t: nat)
    requires t < |a| == |b|
  {
    forall i :: 0 <= i < |a| ==>
      b[i] == if i == t then a[i].(noChilds := 0)
              else if Kid(a[i], i, t) then a[i].(gid := -1)
              else a[i]
  }

  /** `t`'s count of children is right, and no child has an index below `j`. */
  ghost predicate CountsFrom(pool: seq<Tcb>, t: nat, j: nat)
    requires t < |pool| && j <= |pool|
  {
    && pool[t].noChilds == Kids(pool, t) && pool[t].gid != t
    && forall i :: 0 <= i < j ==> !Kid(pool[i], i, t)
  }

  lemma ScannedCounts(pool: seq<Tcb>, t: nat, j: nat)
    requires t < |pool| && j < |pool| && CountsFrom(pool, t, j)
    ensures CountsFrom(Scanned(pool, t, j), t, j + 1)
  {
    if pool[j].valid && pool[j].gid == t {
      var q := pool[j := pool[j].(gid := -1)];
      KidsUpdate(pool, j, q[j], t);
      KidsUpdate(q, t, Scanned(pool, t, j)[t], t);
    }
  }

  lemma ScannedOrphaned(pool: seq<Tcb>, t: nat, j: nat, r: seq<Tcb>)
    requires t < |pool| == |r| && j < |pool| && pool[t].gid != t
    requires Orphaned(Scanned(pool, t, j), r, t)
    ensures Orphaned(pool, r, t)
  {
  }

  /** The scan stops when the count reaches zero; as the count is right, it leaves no child
      behind. */
  lemma {:induction false} NoneLeftBehind(pool: seq<Tcb>, t: nat, j: nat)
    requires t < |pool| && j <= |pool| && CountsFrom(pool, t, j)
    ensures Orphaned(pool, Detach(pool, t, j), t)
    decreases |pool| - j
  {
    if pool[t].noChilds > 0 && j < |pool| {
      ScannedCounts(pool, t, j);
      NoneLeftBehind(Scanned(pool, t, j), t, j + 1);
      ScannedOrphaned(pool, t, j, Detach(pool, t, j));
    } else {
      NoKids(pool, t);
    }
  }
}
