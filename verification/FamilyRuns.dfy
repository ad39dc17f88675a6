/** Whole runs: threads are created, join, return, are deleted, sleep and queue in any order.

    The root and the idle thread are not deleted, a zombie is deleted only once its parent
    has let go of it, and a thread acts only while it is alive and ready.  Semaphores, queues
    and mutexes may wake or note any thread whatever, as their rings and arrays may name threads
    that do not wait there any more. */
module FamilyRuns {
  import opened Tcbs
  import opened Family
  import opened FamilyKept

  /** Where a thread is with respect to tk_join: not in it, waiting for `child`, or woken and
      about to return with the value `v` that `child` died with. */
  datatype Pc = Free | Joins(child: nat) | Joined(child: nat, v: int)

  /** `died` records with which value the last thread in each slot of the pool died. */
  datatype World = World(pool: seq<Tcb>, pcs: seq<Pc>, died: seq<int>)

  datatype Op =
    | Create(a: nat, t: nat, prio: nat, arg: int)
    | Return(a: nat, v: int, wakeuptime: int)
    | Delete(t: nat)
    | Join(a: nat, c: nat)
    | JoinDead(a: nat, c: nat)
    | Resume(a: nat)
    | Tick(n: nat, now: int, active: int)
    | Block(a: nat, queue: bool, sleep: bool, wakeuptime: int, bOn: BlockedOn, event: WakeEvent)
    | Release(t: nat)
    | Wake(t: nat)
    | Note(t: nat)
    | Reprio(t: nat, prio: nat)

  /** A thread that may take a step of its own. */
  predicate Acts(w: World, idle: nat, a: nat) {
    a < |w.pool| == |w.pcs| && a != idle && w.pool[a].valid && w.pool[a].state == READY && w.pcs[a] == Free
  }

  function Settled(pc: Pc, t: Tcb, died: seq<int>): Pc {
    if !t.valid || t.state.zombi then Free
    else if pc.Joins? && !t.state.term && pc.child < |died| then Joined(pc.child, died[pc.child])
    else pc
  }

  ghost predicate Settle(w: World, w': World) {
    && |w'.pcs| == |w.pcs| == |w.pool| == |w'.pool|
    && forall p :: 0 <= p < |w.pcs| ==> w'.pcs[p] == Settled(w.pcs[p], w'.pool[p], w'.died)
  }

  function Blocked(t: Tcb, op: Op): Tcb
    requires op.Block?
  {
    var q := if op.queue then t.(state := t.state.(queue := true), bOn := op.bOn, wakeupEvent := op.event) else t;
    if op.sleep then Asleep(q, op.wakeuptime) else q
  }

  ghost predicate Next(w: World, idle: nat, op: Op, w': World) {
    && Gids(w.pool) && |w.pool| == |w.pcs| == |w.died|
    && match op
       case Create(a, t, prio, arg) =>
         && Acts(w, idle, a) && t < |w.pool| && !w.pool[t].valid
         && w' == World(Created(w.pool, t, a, prio, arg), w.pcs, w.died)
       case Return(a, v, wakeuptime) =>
         && Acts(w, idle, a) && a != 0
         && var r := Died(w.pool, a, v);
            w' == World(r[a := Asleep(r[a], wakeuptime)], w.pcs, w.died[a := v])
       case Delete(t) =>
         && t < |w.pool| && w.pool[t].valid && t != 0 && t != idle
         && (w.pool[t].state.zombi ==> w.pool[t].gid == -1)
         && w'.pool == Deleted(w.pool, t).0
         && w'.died == (if w.pool[t].state.zombi then w.died else w.died[t := w.pool[t].retval])
         && Settle(w, w')
       case Join(a, c) =>
         && Acts(w, idle, a) && Alive(w.pool, c) && w.pool[c].gid == a
         && w' == World(Joining(w.pool, a, c), w.pcs[a := Joins(c)], w.died)
       case JoinDead(a, c) =>
         && Acts(w, idle, a) && c < |w.pool| && w.pool[c].valid && w.pool[c].state.zombi && w.pool[c].gid == a
         && w' == World(TryDetach(w.pool, c, true).0, w.pcs, w.died)
       case Resume(a) =>
         && a < |w.pool| && w.pool[a].valid && w.pool[a].state == READY && w.pcs[a].Joined?
         && w' == World(w.pool, w.pcs[a := Free], w.died)
       case Tick(n, now, active) =>
         n <= |w.pool| && w'.pool == Ticked(w.pool, n, now, active) && w'.died == w.died && Settle(w, w')
       case Block(a, queue, sleep, _, _, _) =>
         && Acts(w, idle, a)
         && w' == World(w.pool[a := Blocked(w.pool[a], op)], w.pcs, w.died)
       case Release(t) => t < |w.pool| && w' == World(w.pool[t := Released(w.pool[t])], w.pcs, w.died)
       case Wake(t) => t < |w.pool| && w' == World(w.pool[t := Woken(w.pool[t])], w.pcs, w.died)
       case Note(t) =>
         && t < |w.pool| && Lapsed(w.pool[t])
         && w' == World(w.pool[t := Noted(w.pool[t])], w.pcs, w.died)
       case Reprio(t, prio) =>
         && t < |w.pool|
         && w' == World(w.pool[t := w.pool[t].(prio := prio)], w.pcs, w.died)
  }

  /** What holds of thread `t`: a zombie still has the value it died with; a live thread waits
      in a join exactly if its T bit is set, and then for the thread it blocks on; and one that
      has been woken is ready, sees E_CHILDDEATH and has received the value. */
  ghost predicate Thread(w: World, t: nat)
    requires t < |w.pool| == |w.pcs| == |w.died|
  {
    var x, pc := w.pool[t], w.pcs[t];
    if !x.valid then pc == Free
    else if x.state.zombi then pc == Free && x.retval == w.died[t]
    else
      && (x.state.term <==> pc.Joins?)
      && (pc.Joins? ==> x.bOn == OnSched(pc.child))
      && (pc.Joined? ==> x.state == READY && x.wakeupEvent == E_CHILDDEATH && x.retval == pc.v)
  }

  ghost predicate Inv(w: World, idle: nat) {
    && Fam(w.pool, idle) && |w.pool| == |w.pcs| == |w.died|
    && forall t :: 0 <= t < |w.pool| ==> Thread(w, t)
  }

  /** A kernel that has just started, or any other state in which nobody joins and nobody is
      dead. */
  ghost predicate Init(w: World, idle: nat) {
    && Fam(w.pool, idle) && |w.pool| == |w.pcs| == |w.died|
    && forall t :: 0 <= t < |w.pool| ==>
         w.pcs[t] == Free && (w.pool[t].valid ==> !w.pool[t].state.zombi && !w.pool[t].state.term)
  }

  /** A change to one thread alone that leaves its family ties and a wait in a join as they
      are. */
  lemma LocalKeepsFam(pool: seq<Tcb>, idle: nat, i: nat, x: Tcb)
    requires Fam(pool, idle) && i < |pool|
    requires x.valid == pool[i].valid && x.gid == pool[i].gid && x.noChilds == pool[i].noChilds
    requires x.state.zombi == pool[i].state.zombi && (i == idle ==> x.state == pool[i].state)
    requires x.valid && x.state.term ==> x.state == pool[i].state && x.bOn == pool[i].bOn
    ensures Fam(pool[i := x], idle)
  {
    var q := pool[i := x];
    forall u | 0 <= u < |pool| ensures Member(q, idle, u) {
      assert Member(pool, idle, u);
      KidsSame(pool, q, u);
    }
  }

  lemma CreateKeepsInv(w: World, idle: nat, op: Op, w': World)
    requires Inv(w, idle) && Next(w, idle, op, w') && op.Create?
    ensures Inv(w', idle)
  {
    CreateKeepsFam(w.pool, idle, op.t, op.a, op.prio, op.arg);
    forall t | 0 <= t < |w.pool| ensures Thread(w', t) {
      assert Thread(w, t);
    }
  }

  lemma ReturnKeepsInv(w: World, idle: nat, op: Op, w': World)
    requires Inv(w, idle) && Next(w, idle, op, w') && op.Return?
    ensures Inv(w', idle)
  {
    var r := Died(w.pool, op.a, op.v);
    DiedKeepsFam(w.pool, idle, op.a, op.v);
    DiedAt(w.pool, idle, op.a, op.v);
    LocalKeepsFam(r, idle, op.a, Asleep(r[op.a], op.wakeuptime));
    forall t | 0 <= t < |w.pool| ensures Thread(w', t) {
      assert Thread(w, t);
    }
  }

  lemma JoinKeepsInv(w: World, idle: nat, op: Op, w': World)
    requires Inv(w, idle) && Next(w, idle, op, w') && (op.Join? || op.Resume?)
    ensures Inv(w', idle)
  {
    if op.Join? {
      JoinKeepsFam(w.pool, idle, op.a, op.c);
    }
    forall t | 0 <= t < |w.pool| ensures Thread(w', t) {
      assert Thread(w, t);
    }
  }

  lemma JoinDeadKeepsInv(w: World, idle: nat, op: Op, w': World)
    requires Inv(w, idle) && Next(w, idle, op, w') && op.JoinDead?
    ensures Inv(w', idle)
  {
    TryDetachKeepsFam(w.pool, idle, op.c, true);
    assert Thread(w, op.a);
    forall t | 0 <= t < |w.pool| ensures Thread(w', t) {
      assert Thread(w, t);
    }
  }

  lemma LocalKeepsInv(w: World, idle: nat, op: Op, w': World)
    requires Inv(w, idle) && Next(w, idle, op, w') && (op.Block? || op.Note? || op.Reprio?)
    ensures Inv(w', idle)
  {
    var i := if op.Block? then op.a else op.t;
    assert Member(w.pool, idle, i) && Thread(w, i);
    LocalKeepsFam(w.pool, idle, i, w'.pool[i]);
    forall t | 0 <= t < |w.pool| ensures Thread(w', t) {
      assert Thread(w, t);
    }
  }

  /** No release and no wake of a thread that is in tk_join. */
  predicate Spares(w: World, op: Op) {
    (op.Release? || op.Wake?) && op.t < |w.pcs| ==> w.pcs[op.t] == Free
  }

  /** Releases and wakes keep everything in order exactly if they spare the threads that are in
      tk_join. */
  lemma HitKeepsInvIff(w: World, idle: nat, op: Op, w': World)
    requires Inv(w, idle) && Next(w, idle, op, w') && (op.Release? || op.Wake?)
    ensures Inv(w', idle) <==> Spares(w, op)
  {
    assert Member(w.pool, idle, op.t) && Thread(w, op.t);
    if Spares(w, op) {
      LocalKeepsFam(w.pool, idle, op.t, w'.pool[op.t]);
      forall t | 0 <= t < |w.pool| ensures Thread(w', t) {
        assert Thread(w, t);
      }
    } else {
      assert !Thread(w', op.t);
    }
  }

  /** What becomes of a thread that is hit in tk_join: it fails the assertion about the event
      when it runs next, or waits for nothing that can happen any more. */
  lemma CutShort(w: World, idle: nat, op: Op, w': World)
    requires Inv(w, idle) && Next(w, idle, op, w') && !Spares(w, op)
    ensures op.Release? || w.pcs[op.t].Joined? ==>
      w'.pool[op.t].state == READY && w'.pool[op.t].wakeupEvent == E_ITC
    ensures op.Wake? && w.pcs[op.t].Joins? ==>
      w'.pool[op.t].state.term && forall c: nat :: !WaitsFor(w'.pool[op.t], c)
  {
    assert Member(w.pool, idle, op.t) && Thread(w, op.t);
  }

  lemma DeletePasses(pool: seq<Tcb>, idle: nat, t: nat, u: nat)
    requires Fam(pool, idle) && t < |pool| && pool[t].valid && t != 0 && t != idle
    requires u < |pool| && u != t
    ensures !pool[t].state.zombi ==>
      Passes(pool[u], Deleted(pool, t).0[u], pool[u].valid && WaitsFor(pool[u], t), pool[t].retval)
    ensures pool[t].state.zombi ==> Deleted(pool, t).0[u] == pool[u]
  {
    if !pool[t].state.zombi {
      DiedAt(pool, idle, t, pool[t].retval);
      DiedKeepsFam(pool, idle, t, pool[t].retval);
      TryDetachPasses(Died(pool, t, pool[t].retval), idle, t, false, u);
    }
  }

  /** The deleted thread is gone, or a zombie that keeps its value. */
  lemma DeletedSelf(pool: seq<Tcb>, idle: nat, t: nat)
    requires Fam(pool, idle) && t < |pool| && pool[t].valid && t != 0 && t != idle
    ensures var y := Deleted(pool, t).0[t]; !y.valid || (y.state.zombi && y.retval == pool[t].retval)
  {
    if !pool[t].state.zombi {
      DiedAt(pool, idle, t, pool[t].retval);
      DiedKeepsFam(pool, idle, t, pool[t].retval);
      DetachedZombie(Died(pool, t, pool[t].retval), idle, t);
    }
  }

  lemma DeleteKeepsThread(w: World, idle: nat, op: Op, w': World, u: nat)
    requires Inv(w, idle) && Next(w, idle, op, w') && op.Delete? && u < |w.pool|
    ensures Thread(w', u)
  {
    assert Thread(w, u) && Thread(w, op.t);
    if u == op.t {
      DeletedSelf(w.pool, idle, u);
    } else {
      DeletePasses(w.pool, idle, op.t, u);
      WaiterWaits(w, idle, u, op.t);
    }
  }

  /** A thread that waits for a zombie that is deleted would be its parent, and it has none. */
  lemma WaiterWaits(w: World, idle: nat, u: nat, t: nat)
    requires Inv(w, idle) && u < |w.pool|
    ensures w.pool[u].valid && w.pcs[u].Joins? ==>
      w.pcs[u].child < |w.pool| && w.pool[w.pcs[u].child].valid && w.pool[w.pcs[u].child].gid == u
    ensures w.pool[u].valid && !w.pool[u].state.zombi ==>
      (WaitsFor(w.pool[u], t) <==> w.pcs[u] == Joins(t))
  {
    assert Thread(w, u) && Member(w.pool, idle, u);
  }

  lemma DeleteKeepsInv(w: World, idle: nat, op: Op, w': World)
    requires Inv(w, idle) && Next(w, idle, op, w') && op.Delete?
    ensures Inv(w', idle)
  {
    DeleteKeepsFamIff(w.pool, idle, op.t);
    forall t | 0 <= t < |w.pool| ensures Thread(w', t) {
      DeleteKeepsThread(w, idle, op, w', t);
    }
  }

  /** The world in the middle of a tick. */
  function Midway(w: World, n: nat, now: int, active: int): (m: World)
    requires Gids(w.pool) && n <= |w.pool| == |w.pcs|
    ensures |m.pool| == |m.pcs| == |w.pool|
  {
    var pool := Ticked(w.pool, n, now, active);
    World(pool, seq(|pool|, i requires 0 <= i < |w.pcs| => Settled(w.pcs[i], pool[i], w.died)), w.died)
  }

  /** One thread, one step of the tick later. */
  lemma MidwayThread(w: World, idle: nat, n: nat, now: int, active: int, u: nat)
    requires Inv(w, idle) && n < |w.pool| && u < |w.pool| && Inv(Midway(w, n, now, active), idle)
    ensures Thread(Midway(w, n + 1, now, active), u)
  {
    var m, m' := Midway(w, n, now, active), Midway(w, n + 1, now, active);
    assert Thread(w, u) && Thread(m, u) && Thread(m, n);
    WaiterWaits(m, idle, u, n);
    if u == n {
      TickOneSelf(m.pool, idle, n, now, active);
    } else {
      TickOneOther(m.pool, idle, n, now, active, u);
    }
  }

  lemma {:induction false} MidwayKeepsInv(w: World, idle: nat, n: nat, now: int, active: int)
    requires Inv(w, idle) && n <= |w.pool|
    ensures Inv(Midway(w, n, now, active), idle)
  {
    if n > 0 {
      MidwayKeepsInv(w, idle, n - 1, now, active);
      TickKeepsFam(w.pool, idle, n, now, active);
      forall u | 0 <= u < |w.pool| ensures Thread(Midway(w, n, now, active), u) {
        MidwayThread(w, idle, n - 1, now, active, u);
      }
    } else {
      forall u | 0 <= u < |w.pool| ensures Thread(Midway(w, 0, now, active), u) {
        assert Thread(w, u);
      }
    }
  }

  lemma TickKeepsInv(w: World, idle: nat, op: Op, w': World)
    requires Inv(w, idle) && Next(w, idle, op, w') && op.Tick?
    ensures Inv(w', idle)
  {
    MidwayKeepsInv(w, idle, op.n, op.now, op.active);
    assert w' == Midway(w, op.n, op.now, op.active);
  }

  /** Every step keeps everything in order exactly if it hits nobody who is in tk_join. */
  lemma StepKeepsInvIff(w: World, idle: nat, op: Op, w': World)
    requires Inv(w, idle) && Next(w, idle, op, w')
    ensures Inv(w', idle) <==> Spares(w, op)
  {
    match op
    case Create(_, _, _, _) => CreateKeepsInv(w, idle, op, w');
    case Return(_, _, _) => ReturnKeepsInv(w, idle, op, w');
    case Delete(_) => DeleteKeepsInv(w, idle, op, w');
    case Join(_, _) => JoinKeepsInv(w, idle, op, w');
    case Resume(_) => JoinKeepsInv(w, idle, op, w');
    case JoinDead(_, _) => JoinDeadKeepsInv(w, idle, op, w');
    case Tick(_, _, _) => TickKeepsInv(w, idle, op, w');
    case Release(_) => HitKeepsInvIff(w, idle, op, w');
    case Wake(_) => HitKeepsInvIff(w, idle, op, w');
    case _ => LocalKeepsInv(w, idle, op, w');
  }
}
