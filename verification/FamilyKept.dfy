/** Every operation keeps the family in order. */
module FamilyKept {
  import opened Tcbs
  import opened Family

  /** `r` is `pool` after the death of `t`. */
  lemma DiedAt(pool: seq<Tcb>, idle: nat, t: nat, v: int)
    requires Fam(pool, idle) && Alive(pool, t) && t != 0 && t != idle
    ensures var r := Died(pool, t, v);
      && r[t] == pool[t].(state := ZOMBI, retval := v, noChilds := 0)
      && forall i :: 0 <= i < |pool| && i != t ==>
           r[i] == if Kid(pool[i], i, t) then pool[i].(gid := -1) else pool[i]
  {
    var q := pool[t := pool[t].(state := ZOMBI, retval := v)];
    assert Member(pool, idle, t);
    KidsSame(pool, q, t);
    NoneLeftBehind(q, t, 0);
  }

  lemma DiedMember(pool: seq<Tcb>, idle: nat, t: nat, v: int, u: nat)
    requires Fam(pool, idle) && Alive(pool, t) && t != 0 && t != idle && u < |pool|
    ensures Member(Died(pool, t, v), idle, u)
  {
    var r := Died(pool, t, v);
    DiedAt(pool, idle, t, v);
    assert Member(pool, idle, u) && Member(pool, idle, t);
    if u == t {
      NoKids(r, t);
    } else {
      KidsSame(pool, r, u);
    }
  }

  lemma DiedKeepsFam(pool: seq<Tcb>, idle: nat, t: nat, v: int)
    requires Fam(pool, idle) && Alive(pool, t) && t != 0 && t != idle
    ensures Fam(Died(pool, t, v), idle)
  {
    DiedAt(pool, idle, t, v);
    forall u | 0 <= u < |pool| ensures Member(Died(pool, t, v), idle, u) {
      DiedMember(pool, idle, t, v, u);
    }
  }

  /** The assertions of _tk_try_detach_parent: the parent is valid, and its count of children
      does not fall below zero.  Only the root and the idle thread are their own parents. */
  lemma ParentCounts(pool: seq<Tcb>, idle: nat, t: nat)
    requires Fam(pool, idle) && t < |pool| && pool[t].valid && pool[t].gid != -1
    ensures Alive(pool, pool[t].gid)
    ensures pool[t].gid != t ==> pool[pool[t].gid].noChilds >= 1
    ensures t != 0 && t != idle ==> pool[t].gid != t
  {
    assert Member(pool, idle, t);
    var p := pool[t].gid;
    assert Member(pool, idle, p);
    NoKids(pool, p);
    assert p != t ==> Kid(pool[t], t, p);
  }

  lemma TryDetachKids(pool: seq<Tcb>, idle: nat, t: nat, force: bool, u: nat)
    requires Fam(pool, idle) && t < |pool| && pool[t].valid && t != 0 && t != idle && u < |pool|
    ensures var (r, detached) := TryDetach(pool, t, force);
      Kids(r, u) == Kids(pool, u) - if detached && u == pool[t].gid then 1 else 0
  {
    var (r, detached) := TryDetach(pool, t, force);
    var q := if detached then pool[t := pool[t].(gid := -1)] else pool;
    if pool[t].gid != -1 {
      ParentCounts(pool, idle, t);
    }
    KidsSame(q, r, u);
    if detached {
      KidsUpdate(pool, t, q[t], u);
    }
  }

  lemma TryDetachMember(pool: seq<Tcb>, idle: nat, t: nat, force: bool, u: nat)
    requires Fam(pool, idle) && t < |pool| && pool[t].valid && t != 0 && t != idle && u < |pool|
    ensures Member(TryDetach(pool, t, force).0, idle, u)
  {
    assert Member(pool, idle, u) && Member(pool, idle, t);
    TryDetachKids(pool, idle, t, force, u);
    if pool[t].gid != -1 {
      ParentCounts(pool, idle, t);
    }
  }

  lemma TryDetachKeepsFam(pool: seq<Tcb>, idle: nat, t: nat, force: bool)
    requires Fam(pool, idle) && t < |pool| && pool[t].valid && t != 0 && t != idle
    ensures Fam(TryDetach(pool, t, force).0, idle)
  {
    if pool[t].gid != -1 {
      ParentCounts(pool, idle, t);
      assert Member(pool, idle, pool[t].gid);
    }
    forall u | 0 <= u < |pool| ensures Member(TryDetach(pool, t, force).0, idle, u) {
      TryDetachMember(pool, idle, t, force, u);
    }
  }

  lemma BuriedMember(pool: seq<Tcb>, idle: nat, t: nat, u: nat)
    requires Fam(pool, idle) && t < |pool| && pool[t].state.zombi && pool[t].gid == -1 && u < |pool|
    ensures Member(Buried(pool, t), idle, u)
  {
    assert Member(pool, idle, u);
    KidsSame(pool, Buried(pool, t), u);
  }

  /** Burying a zombie keeps the family in order exactly if its parent has let go of it. */
  lemma BurialKeepsFamIff(pool: seq<Tcb>, idle: nat, t: nat)
    requires Fam(pool, idle) && t < |pool| && pool[t].valid && pool[t].state.zombi
    ensures Fam(Buried(pool, t), idle) <==> pool[t].gid == -1
  {
    var r := Buried(pool, t);
    if pool[t].gid == -1 {
      forall u | 0 <= u < |pool| ensures Member(r, idle, u) {
        BuriedMember(pool, idle, t, u);
      }
    } else {
      assert Member(pool, idle, t);
      var p := pool[t].gid;
      assert Member(pool, idle, p);
      KidsUpdate(pool, t, r[t], p);
      assert !Member(r, idle, p);
    }
  }

  /** Deleting a thread keeps the family in order exactly if it is neither the root nor the
      idle thread, nor a zombie whose parent may still come to join it. */
  lemma DeleteKeepsFamIff(pool: seq<Tcb>, idle: nat, t: nat)
    requires Fam(pool, idle) && t < |pool| && pool[t].valid
    ensures Fam(Deleted(pool, t).0, idle) <==>
      t != 0 && t != idle && !(pool[t].state.zombi && pool[t].gid != -1)
  {
    if t == 0 || t == idle {
      DiedStill(pool, t, pool[t].retval);
    } else if pool[t].state.zombi {
      BurialKeepsFamIff(pool, idle, t);
    } else {
      LiveDeleteKeepsFam(pool, idle, t);
    }
  }

  lemma LiveDeleteKeepsFam(pool: seq<Tcb>, idle: nat, t: nat)
    requires Fam(pool, idle) && Alive(pool, t) && t != 0 && t != idle
    ensures Fam(Deleted(pool, t).0, idle)
  {
    var d := Died(pool, t, pool[t].retval);
    DiedKeepsFam(pool, idle, t, pool[t].retval);
    DiedAt(pool, idle, t, pool[t].retval);
    TryDetachKeepsFam(d, idle, t, false);
    DetachedZombie(d, idle, t);
    var (q, bury) := TryDetach(d, t, false);
    if bury {
      BurialKeepsFamIff(q, idle, t);
    }
  }

  /** A zombie that is let go stays a valid zombie and has no parent any more. */
  lemma DetachedZombie(pool: seq<Tcb>, idle: nat, t: nat)
    requires Fam(pool, idle) && t < |pool| && pool[t].valid && t != 0 && t != idle
    requires pool[t].state.zombi
    ensures var (q, detached) := TryDetach(pool, t, false);
      q[t].valid && q[t].state.zombi && (detached ==> q[t].gid == -1) && q[t].retval == pool[t].retval
  {
    if pool[t].gid != -1 {
      ParentCounts(pool, idle, t);
    }
  }

  lemma TimedOutKeepsFam(pool: seq<Tcb>, idle: nat, i: nat, now: int)
    requires Fam(pool, idle) && i < |pool|
    ensures Fam(pool[i := TimedOut(pool[i], now)], idle)
  {
    var q := pool[i := TimedOut(pool[i], now)];
    forall u | 0 <= u < |pool| ensures Member(q, idle, u) {
      assert Member(pool, idle, u);
      KidsSame(pool, q, u);
    }
  }

  lemma TickOneKeepsFam(pool: seq<Tcb>, idle: nat, i: nat, now: int, active: int)
    requires Fam(pool, idle) && i < |pool|
    ensures Fam(TickOne(pool, i, now, active), idle)
  {
    var q := pool[i := TimedOut(pool[i], now)];
    TimedOutKeepsFam(pool, idle, i, now);
    if q[i].valid && q[i].state.zombi && i != active {
      TryDetachKeepsFam(q, idle, i, false);
      DetachedZombie(q, idle, i);
      var (q', detached) := TryDetach(q, i, false);
      if detached {
        BurialKeepsFamIff(q', idle, i);
      }
    }
  }

  lemma {:induction false} TickKeepsFam(pool: seq<Tcb>, idle: nat, n: nat, now: int, active: int)
    requires Fam(pool, idle) && n <= |pool|
    ensures Fam(Ticked(pool, n, now, active), idle)
  {
    if n > 0 {
      TickKeepsFam(pool, idle, n - 1, now, active);
      TickOneKeepsFam(Ticked(pool, n - 1, now, active), idle, n - 1, now, active);
    }
  }

  /** Between the two pools thread `a` has got a new child `t`, and nothing else has happened. */
  ghost predicate NewChild(pool: seq<Tcb>, r: seq<Tcb>, t: nat, a: nat, prio: nat, arg: int) {
    && t < |pool| == |r| && a < |pool| && t != a
    && r[t].valid && r[t].state == READY && r[t].thid == t && r[t].gid == a && r[t].noChilds == 0
    && r[t].prio == prio && r[t].retval == arg && r[t].bOn == OnSched(NIL) && r[t].wakeupEvent == E_NONE
    && r[a] == pool[a].(noChilds := pool[a].noChilds + 1)
    && forall i :: 0 <= i < |pool| && i != t && i != a ==> r[i] == pool[i]
  }

  lemma CreatedIsNew(pool: seq<Tcb>, t: nat, a: nat, prio: nat, arg: int)
    requires t < |pool| && a < |pool| && t != a
    ensures NewChild(pool, Created(pool, t, a, prio, arg), t, a, prio, arg)
  {
  }

  lemma CreateKeepsFam(pool: seq<Tcb>, idle: nat, t: nat, a: nat, prio: nat, arg: int)
    requires Fam(pool, idle) && t < |pool| && !pool[t].valid && Alive(pool, a)
    ensures Fam(Created(pool, t, a, prio, arg), idle)
  {
    var r := Created(pool, t, a, prio, arg);
    forall u | 0 <= u < |pool| ensures Member(r, idle, u) {
      assert Member(pool, idle, u);
      if u == t {
        forall i | 0 <= i < |pool| ensures !Kid(r[i], i, t) {
          assert Member(pool, idle, i);
        }
        NoKids(r, t);
      } else {
        var q := pool[t := r[t]];
        KidsUpdate(pool, t, r[t], u);
        KidsSame(q, r, u);
      }
    }
  }

  lemma JoinKeepsFam(pool: seq<Tcb>, idle: nat, a: nat, c: nat)
    requires Fam(pool, idle) && a < |pool| && c < |pool| && a != idle
    requires pool[a].valid && pool[a].state == READY && pool[c].valid && pool[c].gid == a
    ensures Fam(Joining(pool, a, c), idle)
  {
    var r := Joining(pool, a, c);
    forall u | 0 <= u < |pool| ensures Member(r, idle, u) {
      assert Member(pool, idle, u);
      KidsSame(pool, r, u);
    }
  }

  /** But for the ties between parents and children. */
  predicate Still(x: Tcb, y: Tcb) {
    x.(gid := 0, noChilds := 0) == y.(gid := 0, noChilds := 0)
  }

  lemma {:induction false} DetachStill(pool: seq<Tcb>, t: nat, j: nat)
    requires t < |pool| && j <= |pool|
    ensures forall i :: 0 <= i < |pool| ==> Still(pool[i], Detach(pool, t, j)[i])
    ensures forall i :: 0 <= i < |pool| && i != t ==> Detach(pool, t, j)[i].noChilds == pool[i].noChilds
    decreases |pool| - j
  {
    if pool[t].noChilds > 0 && j < |pool| {
      var q := Scanned(pool, t, j);
      assert forall i :: 0 <= i < |pool| ==> Still(pool[i], q[i]);
      DetachStill(q, t, j + 1);
    }
  }

  /** A death changes no more than the dead thread's state and value, and ties. */
  lemma DiedStill(pool: seq<Tcb>, t: nat, v: int)
    requires t < |pool|
    ensures var r := Died(pool, t, v);
      && Still(pool[t].(state := ZOMBI, retval := v), r[t])
      && forall i :: 0 <= i < |pool| && i != t ==> Still(pool[i], r[i]) && r[i].noChilds == pool[i].noChilds
    ensures Agree(pool, Died(pool, t, v))
  {
    var q := pool[t := pool[t].(state := ZOMBI, retval := v)];
    DetachStill(q, t, 0);
    forall i | 0 <= i < |pool| && i != t ensures Still(pool[i], Died(pool, t, v)[i]) {
      assert q[i] == pool[i];
    }
  }

  lemma TryDetachAgrees(pool: seq<Tcb>, t: nat, force: bool)
    requires t < |pool| && GidOk(pool[t], |pool|)
    ensures Agree(pool, TryDetach(pool, t, force).0)
  {
  }

  /** How a thread comes through the death of another: woken with `v`, or with nothing changed
      that matters to tk_join. */
  ghost predicate Passes(x: Tcb, y: Tcb, woken: bool, v: int) {
    && y.valid == x.valid && y.state.zombi == x.state.zombi
    && if woken then y.state == READY && y.bOn == OnSched(NIL) && y.wakeupEvent == E_CHILDDEATH && y.retval == v
       else
         && y.retval == x.retval && y.bOn == x.bOn && y.state.term == x.state.term
         && (x.state == READY ==> y.state == READY && y.wakeupEvent == x.wakeupEvent)
  }

  /** Who passes a step of TryDetach for `t` woken: the one that waits for it. */
  lemma TryDetachPasses(pool: seq<Tcb>, idle: nat, t: nat, force: bool, u: nat)
    requires Fam(pool, idle) && t < |pool| && pool[t].valid && t != 0 && t != idle
    requires u < |pool| && u != t
    ensures Passes(pool[u], TryDetach(pool, t, force).0[u], pool[u].valid && WaitsFor(pool[u], t), pool[t].retval)
  {
    assert Member(pool, idle, u);
    if pool[t].gid != -1 {
      ParentCounts(pool, idle, t);
      assert Member(pool, idle, pool[t].gid);
    }
  }

  /** Nothing else changes in either of them but ties. */
  lemma TryDetachStill(pool: seq<Tcb>, idle: nat, t: nat, force: bool, u: nat)
    requires Fam(pool, idle) && t < |pool| && pool[t].valid && t != 0 && t != idle && u < |pool|
    ensures var x, y := pool[u], TryDetach(pool, t, force).0[u];
      if u == pool[t].gid && x.state.term && x.bOn == OnSched(t)
      then Still(x.(state := READY, bOn := OnSched(NIL), wakeupEvent := E_CHILDDEATH, retval := pool[t].retval), y)
      else Still(x, y)
  {
    assert Member(pool, idle, u);
    if pool[t].gid != -1 {
      ParentCounts(pool, idle, t);
    }
  }

  /** Thread `i` is buried, or stays as it is but for its sleep. */
  lemma TickOneSelf(pool: seq<Tcb>, idle: nat, i: nat, now: int, active: int)
    requires Fam(pool, idle) && i < |pool|
    ensures var x, y := pool[i], TickOne(pool, i, now, active)[i];
      if x.valid && x.state.zombi then y.valid ==> y.state.zombi && y.retval == x.retval
      else Passes(x, y, false, 0)
  {
    assert Member(pool, idle, i);
    var q := pool[i := TimedOut(pool[i], now)];
    TimedOutKeepsFam(pool, idle, i, now);
    if q[i].valid && q[i].state.zombi {
      DetachedZombie(q, idle, i);
    }
  }

  lemma TickOneOther(pool: seq<Tcb>, idle: nat, i: nat, now: int, active: int, u: nat)
    requires Fam(pool, idle) && i < |pool| && u < |pool| && u != i
    ensures var woken := pool[u].valid && WaitsFor(pool[u], i) && pool[i].valid && pool[i].state.zombi && i != active;
      Passes(pool[u], TickOne(pool, i, now, active)[u], woken, pool[i].retval)
  {
    var q := pool[i := TimedOut(pool[i], now)];
    TimedOutKeepsFam(pool, idle, i, now);
    if q[i].valid && q[i].state.zombi && i != active {
      TryDetachPasses(q, idle, i, false, u);
    }
  }

  /** A ready thread stays ready through a tick. */
  lemma {:induction false} TickKeepsReady(pool: seq<Tcb>, idle: nat, n: nat, now: int, active: int, u: nat)
    requires Fam(pool, idle) && n <= |pool| && u < |pool| && pool[u].valid && pool[u].state == READY
    ensures Ticked(pool, n, now, active)[u].valid && Ticked(pool, n, now, active)[u].state == READY
  {
    if n > 0 {
      TickKeepsReady(pool, idle, n - 1, now, active, u);
      TickKeepsFam(pool, idle, n - 1, now, active);
      if u == n - 1 {
        TickOneSelf(Ticked(pool, n - 1, now, active), idle, n - 1, now, active);
      } else {
        TickOneOther(Ticked(pool, n - 1, now, active), idle, n - 1, now, active, u);
      }
    }
  }

  /** A step of the tick makes no zombie. */
  lemma TickOneZombies(pool: seq<Tcb>, idle: nat, i: nat, now: int, active: int)
    requires Fam(pool, idle) && i < |pool|
    ensures var r := TickOne(pool, i, now, active);
      forall u :: 0 <= u < |r| && r[u].valid && r[u].state.zombi ==>
        pool[u].valid && pool[u].state.zombi && pool[u].prio == r[u].prio
  {
  }

  /** A step of the tick for another thread changes no more than the ties of one that is not in
      a join. */
  lemma TickOneStill(pool: seq<Tcb>, idle: nat, i: nat, now: int, active: int, u: nat)
    requires Fam(pool, idle) && i < |pool| && u < |pool| && u != i && !(pool[u].valid && pool[u].state.term)
    ensures Still(pool[u], TickOne(pool, i, now, active)[u])
  {
    if pool[i].valid && pool[i].gid != -1 {
      ParentCounts(pool, idle, i);
    }
  }

  /** What the timer makes of a thread that is in no join. */
  ghost predicate Timed(x: Tcb, y: Tcb, now: int) {
    if x.state.sleep && x.wakeuptime <= now
    then Still(x.(state := x.state.(queue := false, sleep := false), wakeupEvent := E_TIMER), y)
    else Still(x, y)
  }

  /** A sleeper wakes in the pass that finds its time come, and in no earlier one; only the dead
      may be gone afterwards. */
  lemma {:induction false} TickTimes(pool: seq<Tcb>, idle: nat, n: nat, now: int, active: int, i: nat)
    requires Fam(pool, idle) && n <= |pool| && i < |pool| && pool[i].valid && !pool[i].state.term
    ensures var x, y := pool[i], Ticked(pool, n, now, active)[i];
      if i < n then (!x.state.zombi ==> y.valid) && (y.valid ==> Timed(x, y, now)) else Still(x, y)
  {
    if n > 0 {
      TickTimes(pool, idle, n - 1, now, active, i);
      TickKeepsFam(pool, idle, n - 1, now, active);
      var q := Ticked(pool, n - 1, now, active);
      if i != n - 1 {
        TickOneStill(q, idle, n - 1, now, active, i);
      } else {
        TickOneTimed(q, idle, i, now, active);
      }
    }
  }

  lemma TickOneTimed(pool: seq<Tcb>, idle: nat, i: nat, now: int, active: int)
    requires Fam(pool, idle) && i < |pool| && pool[i].valid && !pool[i].state.term
    ensures var x, y := pool[i], TickOne(pool, i, now, active)[i];
      (!x.state.zombi ==> y.valid) && (y.valid ==> Timed(x, y, now))
  {
    if pool[i].gid != -1 {
      ParentCounts(pool, idle, i);
    }
  }

  /** Thread `i` is dead, and its parent has let go of it, or waits for it. */
  ghost predicate Detachable(pool: seq<Tcb>, i: nat)
    requires i < |pool| && GidOk(pool[i], |pool|)
  {
    pool[i].gid == -1 || (pool[pool[i].gid].state.term && pool[pool[i].gid].bOn == OnSched(i))
  }

  /** A live thread is buried at once when it is deleted exactly if its parent has let go of it,
      or waits for it; else it stays as a zombie. */
  lemma DeleteBuriesIff(pool: seq<Tcb>, idle: nat, t: nat)
    requires Fam(pool, idle) && Alive(pool, t) && t != 0 && t != idle
    ensures var y := Deleted(pool, t).0[t];
      (!y.valid <==> Detachable(pool, t)) && (!y.valid <==> Deleted(pool, t).1) && y.state.zombi
  {
    DiedAt(pool, idle, t, pool[t].retval);
    if pool[t].gid != -1 {
      ParentCounts(pool, idle, t);
    }
  }

  /** A zombie is buried by its step of the tick exactly if its parent has let go of it, or
      waits for it, and it does not run. */
  lemma TickOneBuriesIff(pool: seq<Tcb>, idle: nat, i: nat, now: int, active: int)
    requires Fam(pool, idle) && i < |pool| && pool[i].valid && pool[i].state.zombi
    ensures TickOne(pool, i, now, active)[i].valid <==> i == active || !Detachable(pool, i)
  {
    if pool[i].gid != -1 {
      ParentCounts(pool, idle, i);
    }
  }
}
