/** What tk_join promises, over whole runs, and which runs those are. */
module JoinRuns {
  import opened Tcbs
  import opened Family
  import opened FamilyKept
  import opened FamilyRuns

  predicate Zombie(pool: seq<Tcb>, c: int) {
    0 <= c < |pool| && pool[c].valid && pool[c].state.zombi
  }

  /** The step by which thread `c` dies, with `v` as its return value. */
  ghost predicate Kills(w: World, op: Op, c: nat, v: int) {
    && Alive(w.pool, c)
    && ((op.Return? && op.a == c && op.v == v) || (op.Delete? && op.t == c && w.pool[c].retval == v))
  }

  lemma {:induction false} MidwayZombie(w: World, idle: nat, n: nat, now: int, active: int, c: nat)
    requires Inv(w, idle) && n <= |w.pool| && c < |w.pool|
    ensures Zombie(Midway(w, n, now, active).pool, c) ==> Zombie(w.pool, c)
  {
    if n > 0 {
      MidwayZombie(w, idle, n - 1, now, active, c);
      MidwayKeepsInv(w, idle, n - 1, now, active);
      var pool := Midway(w, n - 1, now, active).pool;
      if c == n - 1 {
        TickOneSelf(pool, idle, n - 1, now, active);
      } else {
        TickOneOther(pool, idle, n - 1, now, active, c);
      }
    }
  }

  lemma TickOneWaits(m: World, idle: nat, i: nat, now: int, active: int, a: nat, c: nat)
    requires Inv(m, idle) && i < |m.pool| && a < |m.pool|
    requires m.pcs[a] == Joins(c) && !Zombie(m.pool, c)
    ensures var y := TickOne(m.pool, i, now, active)[a]; y.valid && !y.state.zombi && y.state.term
  {
    WaiterWaits(m, idle, a, i);
    assert Thread(m, a);
    if a == i {
      TickOneSelf(m.pool, idle, i, now, active);
    } else {
      TickOneOther(m.pool, idle, i, now, active, a);
    }
  }

  /** A tick wakes nobody who waits for a living thread. */
  lemma {:induction false} MidwayWaits(w: World, idle: nat, n: nat, now: int, active: int, a: nat, c: nat)
    requires Inv(w, idle) && n <= |w.pool| && a < |w.pool| && c < |w.pool|
    requires w.pcs[a] == Joins(c) && !Zombie(w.pool, c)
    ensures Midway(w, n, now, active).pcs[a] == Joins(c)
  {
    if n == 0 {
      assert Thread(w, a);
    } else {
      MidwayWaits(w, idle, n - 1, now, active, a, c);
      MidwayZombie(w, idle, n - 1, now, active, c);
      MidwayKeepsInv(w, idle, n - 1, now, active);
      TickOneWaits(Midway(w, n - 1, now, active), idle, n - 1, now, active, a, c);
    }
  }

  lemma OtherZombie(w: World, idle: nat, op: Op, w': World, c: nat)
    requires Inv(w, idle) && Next(w, idle, op, w') && Zombie(w'.pool, c)
    requires op.Create? || op.Join? || op.Resume? || op.Block? || op.Release? || op.Wake? || op.Note? || op.Reprio?
    ensures Zombie(w.pool, c) && w'.died[c] == w.died[c]
  {
  }

  lemma ReturnZombie(w: World, idle: nat, op: Op, w': World, c: nat)
    requires Inv(w, idle) && Next(w, idle, op, w') && Zombie(w'.pool, c) && op.Return?
    ensures Kills(w, op, c, w'.died[c]) || (Zombie(w.pool, c) && w'.died[c] == w.died[c])
  {
    DiedAt(w.pool, idle, op.a, op.v);
  }

  lemma DeleteZombie(w: World, idle: nat, op: Op, w': World, c: nat)
    requires Inv(w, idle) && Next(w, idle, op, w') && Zombie(w'.pool, c) && op.Delete?
    ensures Kills(w, op, c, w'.died[c]) || (Zombie(w.pool, c) && w'.died[c] == w.died[c])
  {
    if c == op.t {
      DeletedSelf(w.pool, idle, c);
    } else {
      DeletePasses(w.pool, idle, op.t, c);
    }
  }

  lemma JoinDeadZombie(w: World, idle: nat, op: Op, w': World, c: nat)
    requires Inv(w, idle) && Next(w, idle, op, w') && Zombie(w'.pool, c) && op.JoinDead?
    ensures Zombie(w.pool, c) && w'.died[c] == w.died[c]
  {
    if c != op.c {
      TryDetachPasses(w.pool, idle, op.c, true, c);
    }
  }

  /** A zombie was one before the step, or the step killed it. */
  lemma StepZombie(w: World, idle: nat, op: Op, w': World, c: nat)
    requires Inv(w, idle) && Next(w, idle, op, w') && Zombie(w'.pool, c)
    ensures Kills(w, op, c, w'.died[c]) || (Zombie(w.pool, c) && w'.died[c] == w.died[c])
  {
    match op
    case Return(_, _, _) => ReturnZombie(w, idle, op, w', c);
    case Delete(_) => DeleteZombie(w, idle, op, w', c);
    case JoinDead(_, _) => JoinDeadZombie(w, idle, op, w', c);
    case Tick(n, now, active) => MidwayZombie(w, idle, n, now, active, c);
    case _ => OtherZombie(w, idle, op, w', c);
  }

  /** A thread that waits for `c` waited before the step, or began in it, with `c` alive. */
  lemma StepWaits(w: World, idle: nat, op: Op, w': World, a: nat, c: nat)
    requires Inv(w, idle) && Next(w, idle, op, w') && a < |w'.pcs| && w'.pcs[a] == Joins(c)
    ensures a < |w.pcs|
    ensures w.pcs[a] == Joins(c) || (op == Join(a, c) && Alive(w'.pool, c))
  {
  }

  /** A thread that is woken from its wait for `c` is woken because `c` died: it is deleted in
      this step, or a tick finds it dead. */
  lemma StepWakes(w: World, idle: nat, op: Op, w': World, a: nat, c: nat, v: int)
    requires Inv(w, idle) && Next(w, idle, op, w') && a < |w'.pcs| && w'.pcs[a] == Joined(c, v)
    ensures a < |w.pcs|
    ensures w.pcs[a] == Joined(c, v) ||
      (w.pcs[a] == Joins(c) && v == w'.died[c] && (Kills(w, op, c, v) || (op.Tick? && Zombie(w.pool, c))))
  {
    assert Thread(w, a) && Member(w.pool, idle, a);
    if w.pcs[a] == Joins(c) {
      WaiterWaits(w, idle, a, c);
      match op
      case Delete(t) =>
        if a != t {
          DeletePasses(w.pool, idle, t, a);
          WaiterWaits(w, idle, a, t);
        } else {
          DeletedSelf(w.pool, idle, t);
        }
      case Tick(n, now, active) =>
        if !Zombie(w.pool, c) {
          MidwayWaits(w, idle, n, now, active, a, c);
        }
      case _ =>
    }
  }

  /** A thread that waits for a living child, and does not afterwards, has been woken by its
      death; or it has been hit. */
  lemma StepFrees(w: World, idle: nat, op: Op, w': World, a: nat, c: nat)
    requires Inv(w, idle) && Next(w, idle, op, w') && a < |w.pcs| && w.pcs[a] == Joins(c)
    requires Alive(w'.pool, a) && !WaitsFor(w'.pool[a], c)
    ensures (c < |w'.died| && w'.pcs[a] == Joined(c, w'.died[c])) || (!Spares(w, op) && op.t == a)
  {
    assert Thread(w, a);
    StepKeepsInvIff(w, idle, op, w');
    if Spares(w, op) {
      assert Thread(w', a);
      if w'.pcs[a].Joined? {
        StepWakes(w, idle, op, w', a, w'.pcs[a].child, w'.pcs[a].v);
      }
    }
  }

  ghost predicate Run(ws: seq<World>, idle: nat, ops: seq<Op>) {
    && |ws| == |ops| + 1 && Init(ws[0], idle)
    && forall i :: 0 <= i < |ops| ==> Next(ws[i], idle, ops[i], ws[i + 1])
  }

  /** The first `n` steps hit nobody who is in tk_join. */
  ghost predicate Sparing(ws: seq<World>, ops: seq<Op>, n: nat)
    requires n <= |ops| < |ws|
  {
    forall i :: 0 <= i < n ==> Spares(ws[i], ops[i])
  }

  lemma {:induction false} AlwaysInv(ws: seq<World>, idle: nat, ops: seq<Op>, n: nat)
    requires Run(ws, idle, ops) && n <= |ops| && Sparing(ws, ops, n)
    ensures Inv(ws[n], idle)
  {
    if n == 0 {
      forall t | 0 <= t < |ws[0].pool| ensures Thread(ws[0], t) {
      }
    } else {
      AlwaysInv(ws, idle, ops, n - 1);
      StepKeepsInvIff(ws[n - 1], idle, ops[n - 1], ws[n]);
    }
  }

  /** Everything is in order in every state of a run exactly if no step of it hits a thread that
      is in tk_join. */
  lemma {:induction false} AlwaysInvIff(ws: seq<World>, idle: nat, ops: seq<Op>, n: nat)
    requires Run(ws, idle, ops) && n <= |ops|
    ensures (forall k :: 0 <= k <= n ==> Inv(ws[k], idle)) <==> Sparing(ws, ops, n)
  {
    if Sparing(ws, ops, n) {
      forall k | 0 <= k <= n ensures Inv(ws[k], idle) {
        AlwaysInv(ws, idle, ops, k);
      }
    } else {
      var i :| 0 <= i < n && !Spares(ws[i], ops[i]);
      if Inv(ws[i], idle) {
        StepKeepsInvIff(ws[i], idle, ops[i], ws[i + 1]);
        assert !Inv(ws[i + 1], idle);
      }
    }
  }

  /** Step `d` is the death of `c` with value `v`, and `a` was waiting for it. */
  ghost predicate DiesAwaited(ws: seq<World>, ops: seq<Op>, d: nat, a: nat, c: nat, v: int)
    requires d < |ops| < |ws|
  {
    Kills(ws[d], ops[d], c, v) && a < |ws[d].pcs| && ws[d].pcs[a] == Joins(c)
  }

  lemma {:induction false} AwaitedZombie(ws: seq<World>, idle: nat, ops: seq<Op>, n: nat, a: nat, c: nat) returns (d: nat)
    requires Run(ws, idle, ops) && n <= |ops| && Sparing(ws, ops, n)
    requires a < |ws[n].pcs|
    requires ws[n].pcs[a] == Joins(c) && Zombie(ws[n].pool, c) && c < |ws[n].died|
    ensures d < n && DiesAwaited(ws, ops, d, a, c, ws[n].died[c])
  {
    assert n > 0;
    AlwaysInv(ws, idle, ops, n - 1);
    StepZombie(ws[n - 1], idle, ops[n - 1], ws[n], c);
    StepWaits(ws[n - 1], idle, ops[n - 1], ws[n], a, c);
    if Kills(ws[n - 1], ops[n - 1], c, ws[n].died[c]) {
      d := n - 1;
    } else {
      d := AwaitedZombie(ws, idle, ops, n - 1, a, c);
    }
  }

  lemma {:induction false} WokenByDeath(ws: seq<World>, idle: nat, ops: seq<Op>, n: nat, a: nat, c: nat, v: int)
      returns (d: nat)
    requires Run(ws, idle, ops) && n <= |ops| && Sparing(ws, ops, n)
    requires a < |ws[n].pcs| && ws[n].pcs[a] == Joined(c, v)
    ensures d < n && DiesAwaited(ws, ops, d, a, c, v)
  {
    assert n > 0;
    AlwaysInv(ws, idle, ops, n - 1);
    assert Next(ws[n - 1], idle, ops[n - 1], ws[n]);
    StepWakes(ws[n - 1], idle, ops[n - 1], ws[n], a, c, v);
    if ws[n - 1].pcs[a] == Joined(c, v) {
      d := WokenByDeath(ws, idle, ops, n - 1, a, c, v);
    } else if Kills(ws[n - 1], ops[n - 1], c, v) {
      d := n - 1;
    } else {
      d := AwaitedZombie(ws, idle, ops, n - 1, a, c);
    }
  }

  /** A thread about to return from tk_join was waiting for its child when the child died, and
      the value it received is the one the child died with; the event it checks is set. */
  lemma JoinReturnsDeathValue(ws: seq<World>, idle: nat, ops: seq<Op>, n: nat, a: nat, c: nat, v: int)
      returns (d: nat)
    requires Run(ws, idle, ops) && n <= |ops| && Sparing(ws, ops, n)
    requires a < |ws[n].pcs| && ws[n].pcs[a] == Joined(c, v)
    ensures d < n && DiesAwaited(ws, ops, d, a, c, v)
    ensures a < |ws[n].pool| && ws[n].pool[a].retval == v && ws[n].pool[a].wakeupEvent == E_CHILDDEATH
    ensures ws[n].pool[a].state == READY
  {
    AlwaysInv(ws, idle, ops, n);
    assert Thread(ws[n], a);
    d := WokenByDeath(ws, idle, ops, n, a, c, v);
  }

  /** A join of a child that is dead already yields the value it died with. */
  lemma {:induction false} ZombieKeepsValue(ws: seq<World>, idle: nat, ops: seq<Op>, n: nat, c: nat) returns (d: nat)
    requires Run(ws, idle, ops) && n <= |ops| && Sparing(ws, ops, n)
    requires Zombie(ws[n].pool, c)
    ensures d < n && Kills(ws[d], ops[d], c, ws[n].pool[c].retval)
  {
    AlwaysInv(ws, idle, ops, n);
    assert Thread(ws[n], c);
    assert n > 0;
    AlwaysInv(ws, idle, ops, n - 1);
    StepZombie(ws[n - 1], idle, ops[n - 1], ws[n], c);
    if Kills(ws[n - 1], ops[n - 1], c, ws[n].died[c]) {
      d := n - 1;
    } else {
      assert Thread(ws[n - 1], c);
      d := ZombieKeepsValue(ws, idle, ops, n - 1, c);
    }
  }

  /** In every state of every run: what a dying or joined thread finds of its parent, the
      assertions of _tk_try_detach_parent; and a thread blocked in tk_join waits for a valid
      child of its own. */
  lemma AlwaysAsserted(ws: seq<World>, idle: nat, ops: seq<Op>, n: nat, t: nat)
    requires Run(ws, idle, ops) && n <= |ops| && Sparing(ws, ops, n)
    requires t < |ws[n].pool| && ws[n].pool[t].valid
    ensures t != 0 && t != idle && ws[n].pool[t].gid != -1 ==>
      var p := ws[n].pool[t].gid;
      p != t && Alive(ws[n].pool, p) && ws[n].pool[p].noChilds >= 1
    ensures ws[n].pool[t].state.term ==> WaitOk(ws[n].pool, t)
  {
    AlwaysInv(ws, idle, ops, n);
    assert Member(ws[n].pool, idle, t);
    if t != 0 && t != idle && ws[n].pool[t].gid != -1 {
      ParentCounts(ws[n].pool, idle, t);
    }
  }
}
