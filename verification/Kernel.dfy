/** The kernel: the thread pool, the schedule, and the operations on them. */
module Kernel {
  import opened Tcbs
  import opened Family
  import opened FamilyKept
  import opened Schedule
  import opened Tally
  import S = ScheduleRuns

  /** A control block as tk_create_kernel leaves it. */
  const EMPTY := Tcb(0, 0, 0, false, ZOMBI, OnSched(NIL), 0, E_NONE, 0, 0)

  class Kernel {
    const pool: array<Tcb>
    /** `Idx` of each thread, kept apart from the rest of its control block. */
    const slotOf: array<int>
    const schedule: array2<int>
    const atPrio: array<int>
    const currIdx: array<int>
    var procsInUse: int
    var procIdx: nat
    var idle: nat
    var active: nat
    ghost var rows: seq<seq<int>>    // the live slots
    ghost var table: seq<seq<int>>   // all slots

    ghost predicate Shape()
      reads this
    {
      && slotOf.Length == pool.Length && pool.Length >= 2
      && atPrio.Length == currIdx.Length == schedule.Length0 == |rows| && |rows| >= 2
      && slotOf != atPrio && slotOf != currIdx && atPrio != currIdx
    }

    ghost predicate Sized()
      requires Shape()
      reads this, atPrio
    {
      forall p :: 0 <= p < |rows| ==> atPrio[p] == |rows[p]| <= schedule.Length1
    }

    ghost predicate Mirrors()
      reads this, schedule
    {
      && Dims(table, schedule.Length0, schedule.Length1)
      && forall p, j :: 0 <= p < schedule.Length0 && 0 <= j < schedule.Length1 ==> schedule[p, j] == table[p][j]
    }

    /** The live slots hold the rows, and all other slots hold 0. */
    ghost predicate Table()
      requires Shape()
      reads this, schedule, atPrio
    {
      Sized() && Mirrors() && TableOk(table, rows, schedule.Length1)
    }

    /** The schedule as a value. */
    ghost function View(): S.World
      reads this, pool, slotOf
    {
      S.World(pool[..], slotOf[..], rows, table, schedule.Length1, procsInUse)
    }

    ghost predicate Spills(p: nat)
      requires Shape() && p < |rows|
      reads this
    {
      Spilling(rows, schedule.Length1, p)
    }

    ghost predicate InBounds(p: nat)
      requires Shape() && p < |rows|
      reads this
    {
      Inside(rows, schedule.Length1, p)
    }

    /** tk_create_kernel: the root and the idle thread, which becomes its own parent. */
    constructor (threads: nat, levels: nat, width: nat)
      requires threads >= 2 && levels >= 2 && width >= 1
      ensures Valid() && Fam(pool[..], idle) && fresh(pool) && fresh(slotOf)
      ensures fresh(schedule) && fresh(atPrio) && fresh(currIdx)
      ensures pool.Length == threads && schedule.Length0 == levels && schedule.Length1 == width
      ensures active == 0 && idle == 1 && procsInUse == 2 && |rows| == levels
      ensures forall p :: 0 <= p < levels ==> rows[p] == if p == 0 then [0] else if p == levels - 1 then [1] else []
      ensures forall t :: 0 <= t < threads && pool[t].valid ==> t < 2 && pool[t].gid == t && pool[t].state == READY
    {
      pool := new Tcb[threads](_ => EMPTY);
      slotOf := new int[threads](_ => 0);
      schedule := new int[levels, width]((_, _) => 0);
      atPrio := new int[levels](_ => 0);
      currIdx := new int[levels](_ => 0);
      active := 0;
      procsInUse := 1;
      procIdx := 0;
      idle := 0;
      rows, table := [], [];
      new;
      hide S.Inv;
      NoRows();
      Boot();
    }

    /** All rows are empty. */
    method NoRows()
      requires atPrio.Length == schedule.Length0
      requires forall p :: 0 <= p < atPrio.Length ==> atPrio[p] == 0
      requires forall p, j :: 0 <= p < schedule.Length0 && 0 <= j < schedule.Length1 ==> schedule[p, j] == 0
      modifies `rows, `table
      ensures |rows| == atPrio.Length && forall p :: 0 <= p < |rows| ==> rows[p] == []
      ensures Mirrors() && TableOk(table, rows, schedule.Length1)
    {
      ghost var levels, width := schedule.Length0, schedule.Length1;
      rows := seq(levels, _ => []);
      table := seq(levels, _ => seq(width, _ => 0));
    }

    method Boot()
      requires Shape() && Table() && schedule.Length1 > 0
      requires forall p :: 0 <= p < |rows| ==> rows[p] == [] && currIdx[p] == 0
      requires procIdx == active == 0 && procsInUse == 1
      requires forall i :: 0 <= i < pool.Length ==> pool[i] == EMPTY
      modifies pool, slotOf, schedule, atPrio, `rows, `table, `procIdx, `procsInUse, `idle
      ensures Valid() && Fam(pool[..], idle) && idle == 1 && procsInUse == 2
      ensures forall p :: 0 <= p < |rows| ==> rows[p] == if p == 0 then [0] else if p == |rows| - 1 then [1] else []
      ensures forall t :: 0 <= t < pool.Length && pool[t].valid ==> t < 2 && pool[t].gid == t && pool[t].state == READY
    {
      pool[0] := pool[0].(state := READY, valid := true);
      CreateIdle(schedule.Length0 - 1);
      SeatRoot();
      Started(pool[..], slotOf[..], rows);
    }

    method CreateIdle(prio: nat)
      requires Shape() && Table() && 0 < prio < |rows| && rows[prio] == [] && schedule.Length1 > 0
      requires procIdx == active == 0 && pool[0] == EMPTY.(state := READY, valid := true)
      requires forall i :: 1 <= i < pool.Length ==> pool[i] == EMPTY
      modifies pool, slotOf, schedule, atPrio, `rows, `table, `procIdx, `procsInUse, `idle
      ensures Shape() && Table() && rows == old(rows)[prio := [1]] && slotOf[1] == 0
      ensures pool[1] == EMPTY.(state := READY, valid := true, thid := 1, gid := 1, prio := prio)
      ensures forall i :: 0 <= i < pool.Length && i != 1 ==> pool[i] == old(pool[i])
      ensures idle == procIdx == 1 && procsInUse == old(procsInUse) + 1
    {
      OneValid(pool[..]);
      FindFree();
      FirstFree(pool[..], procIdx);
      FillIdle(prio);
      assert rows[prio] + [1] == [1];
      procsInUse := procsInUse + 1;
      S.PutTable(table, rows, schedule.Length1, prio, procIdx);
      Seat(prio, procIdx);
      idle := procIdx;
    }

    /** The idle thread is no child of the root, but its own. */
    method FillIdle(prio: nat)
      requires procIdx == 1 && active == 0 && pool.Length >= 2
      requires pool[0] == EMPTY.(state := READY, valid := true) && pool[1] == EMPTY
      modifies pool
      ensures pool[1] == EMPTY.(state := READY, valid := true, thid := 1, gid := 1, prio := prio)
      ensures forall i :: 0 <= i < pool.Length && i != 1 ==> pool[i] == old(pool[i])
    {
      ghost var was := pool[..];
      Fill(procIdx, prio, 0);
      assert forall i :: 0 <= i < pool.Length ==> pool[i] == Created(was, 1, 0, prio, 0)[i];
      var p := pool[procIdx].gid;
      pool[p] := pool[p].(noChilds := pool[p].noChilds - 1);
      pool[procIdx] := pool[procIdx].(gid := pool[procIdx].thid);
    }

    method SeatRoot()
      requires Shape() && Table() && rows[0] == [] && schedule.Length1 > 0
      modifies schedule, atPrio, `rows, `table
      ensures Shape() && Table() && rows == old(rows)[0 := [0]]
    {
      atPrio[0] := 1;
      schedule[0, 0] := 0;
      table := S.Put(table, 0, 0, 0);
      rows := rows[0 := [0]];
    }

    /** The loop by which a thread leaves its row.  It runs to the last live slot, which it
        fills from the slot behind. */
    method ShiftRow(prio: nat, idx: nat)
      requires Shape() && Table() && Sched(pool[..], slotOf[..], rows)
      requires prio < |rows| && idx < |rows[prio]| && InBounds(prio)
      modifies schedule, slotOf, `table
      ensures Mirrors() && Refilled(old(table), table, schedule.Length1, prio, idx, |rows[prio]|)
      ensures Renoted(pool[..], old(slotOf[..]), slotOf[..], rows, schedule.Length1, prio, idx, |rows[prio]|)
    {
      ghost var was := slotOf[..];
      ghost var before := table;
      var i := idx;
      while i < atPrio[prio]
        invariant idx <= i <= |rows[prio]| && Mirrors()
        invariant Refilled(before, table, schedule.Length1, prio, idx, i)
        invariant Renoted(pool[..], was, slotOf[..], rows, schedule.Length1, prio, idx, i)
      {
        Refill(before, prio, idx, i);
        BehindIs(before, rows, schedule.Length1, prio, i);
        RenoteStep(pool[..], was, rows, slotOf[..], schedule.Length1, prio, idx, i);
        ghost var slots := slotOf[..];
        slotOf[schedule[prio, i]] := i;
        assert slotOf[..] == slots[Follower(rows, schedule.Length1, prio, i) := i];
        i := i + 1;
      }
    }

    /** Fill slot `i` of row `prio` from the slot behind it in memory. */
    method Refill(ghost was: seq<seq<int>>, prio: nat, idx: nat, i: nat)
      requires prio < schedule.Length0 && idx <= i < schedule.Length1 && Mirrors()
      requires Refilled(was, table, schedule.Length1, prio, idx, i)
      requires i + 1 < schedule.Length1 || prio + 1 < schedule.Length0
      modifies schedule, `table
      ensures Mirrors() && Refilled(was, table, schedule.Length1, prio, idx, i + 1)
      ensures schedule[prio, i] == Behind(was, schedule.Length1, prio, i)
    {
      schedule[prio, i] :=
        if i + 1 < schedule.Length1 then schedule[prio, i + 1] else schedule[prio + 1, 0];
      table := S.Put(table, prio, i, schedule[prio, i]);
    }

    method ResetCursor(prio: nat)
      requires Shape() && prio < |rows|
      modifies currIdx
      ensures currIdx[..] == old(currIdx[..])[prio :=
        if old(currIdx[prio]) >= atPrio[prio] then 0 else old(currIdx[prio])]
    {
      if currIdx[prio] >= atPrio[prio] {
        currIdx[prio] := 0;
      }
    }

    /** A thread leaves slot `idx` of its row, as in tk_delete_thread and tk_change_prio. */
    method LeaveRow(prio: nat, idx: nat)
      requires Shape() && Table() && Sched(pool[..], slotOf[..], rows)
      requires prio < |rows| && idx < |rows[prio]| && InBounds(prio)
      modifies schedule, slotOf, atPrio, currIdx, `rows, `table
      ensures Shape() && rows == Left(old(rows), prio, idx) && Sized() && Mirrors()
      ensures Refilled(old(table), table, schedule.Length1, prio, idx, |old(rows)[prio]|)
      ensures Renoted(pool[..], old(slotOf[..]), slotOf[..], old(rows), schedule.Length1, prio, idx, |old(rows)[prio]|)
      ensures currIdx[..] == old(currIdx[..])[prio :=
        if old(currIdx[prio]) >= |rows[prio]| then 0 else old(currIdx[prio])]
    {
      ShiftRow(prio, idx);
      atPrio[prio] := atPrio[prio] - 1;
      rows := Left(rows, prio, idx);
      ResetCursor(prio);
    }

    /** A thread enters the slot behind the last live one. */
    method EnterRow(prio: nat, t: int)
      requires Shape() && Sized() && Mirrors() && prio < |rows| && |rows[prio]| < schedule.Length1
      modifies schedule, atPrio, `rows, `table
      ensures Shape() && Sized() && Mirrors() && rows == Entered(old(rows), prio, t)
      ensures table == S.Put(old(table), prio, old(|rows[prio]|), t)
    {
      schedule[prio, atPrio[prio]] := t;
      table := S.Put(table, prio, atPrio[prio], t);
      atPrio[prio] := atPrio[prio] + 1;
      rows := Entered(rows, prio, t);
    }

    /** _tk_detach_children. */
    method DetachChildren(t: nat)
      requires t < pool.Length
      modifies pool
      ensures pool[..] == Detach(old(pool[..]), t, 0)
    {
      if pool[t].noChilds > 0 {
        var j := 0;
        while pool[t].noChilds > 0 && j < pool.Length
          invariant 0 <= j <= pool.Length
          invariant Detach(pool[..], t, j) == Detach(old(pool[..]), t, 0)
        {
          Scan(t, j);
          j := j + 1;
        }
      }
    }

    method Scan(t: nat, j: nat)
      requires t < pool.Length && j < pool.Length
      modifies pool
      ensures pool[..] == Scanned(old(pool[..]), t, j)
    {
      if pool[j].valid && pool[j].gid == t {
        pool[j] := pool[j].(gid := -1);
        ghost var q := pool[..];
        pool[t] := pool[t].(noChilds := pool[t].noChilds - 1);
        assert pool[..] == q[t := q[t].(noChilds := q[t].noChilds - 1)];
      }
    }

    /** _tk_try_detach_parent, with its two assertions. */
    method TryDetachParent(t: nat, force: bool) returns (detached: bool)
      requires t < pool.Length && GidOk(pool[t], pool.Length)
      requires pool[t].gid != -1 ==> pool[pool[t].gid].valid
      requires pool[t].gid != -1 && (force || WaitsFor(pool[pool[t].gid], t)) ==> pool[pool[t].gid].noChilds >= 1
      modifies pool
      ensures pool[..] == TryDetach(old(pool[..]), t, force).0
      ensures detached == TryDetach(old(pool[..]), t, force).1
    {
      if pool[t].gid == -1 {
        return true;
      }
      var p := pool[t].gid;
      assert pool[p].valid;
      var unblocked := false;
      if pool[p].state.term && pool[p].bOn == OnSched(t) {
        pool[p] := pool[p].(state := pool[p].state.(term := false));
        pool[p] := pool[p].(wakeupEvent := E_CHILDDEATH);
        if pool[p].state == READY {
          pool[p] := pool[p].(bOn := OnSched(NIL));
        } else {
          pool[p] := pool[p].(bOn := OnSched(t));
        }
        unblocked := true;
        pool[p] := pool[p].(retval := pool[t].retval);
      }
      ghost var q := pool[..];
      if unblocked || force {
        pool[p] := pool[p].(noChilds := pool[p].noChilds - 1);
        assert pool[p].noChilds >= 0;
        assert pool[..] == q[p := q[p].(noChilds := q[p].noChilds - 1)];
        pool[t] := pool[t].(gid := -1);
        return true;
      }
      return false;
    }

    /** The cursors of the rows and of the pool. */
    ghost predicate Cursors()
      requires Shape()
      reads this, currIdx
    {
      && procIdx < pool.Length && idle < pool.Length && active < pool.Length
      && forall p :: 0 <= p < |rows| ==> 0 <= currIdx[p] && (currIdx[p] == 0 || currIdx[p] < |rows[p]|)
    }

    ghost predicate Valid()
      reads this, pool, slotOf, schedule, atPrio, currIdx
    {
      Shape() && Sized() && Mirrors() && S.Inv(View()) && Cursors()
    }

    /** What tk_delete_thread does with a thread that is not dead yet. */
    method MarkDead(t: nat) returns (bury: bool)
      requires Fam(pool[..], idle) && Alive(pool[..], t)
      modifies pool
      ensures Agree(old(pool[..]), pool[..])
      ensures pool[..] == TryDetach(Died(old(pool[..]), t, old(pool[t].retval)), t, false).0
      ensures bury == TryDetach(Died(old(pool[..]), t, old(pool[t].retval)), t, false).1
    {
      ghost var was, v := pool[..], pool[t].retval;
      DiedStill(was, t, v);
      if was[t].gid != -1 {
        ParentCounts(was, idle, t);
      }
      pool[t] := pool[t].(state := ZOMBI);
      assert pool[..] == was[t := was[t].(state := ZOMBI, retval := v)];
      DetachChildren(t);
      bury := TryDetachParent(t, false);
      TryDetachAgrees(Died(was, t, v), t, false);
    }

    /** tk_delete_thread, for a thread that is not dead yet. */
    method Kill(t: nat) returns (bury: bool)
      requires Valid() && Fam(pool[..], idle) && Alive(pool[..], t)
      modifies pool
      ensures Valid() && Agree(old(pool[..]), pool[..])
      ensures pool[..] == TryDetach(Died(old(pool[..]), t, old(pool[t].retval)), t, false).0
      ensures bury == TryDetach(Died(old(pool[..]), t, old(pool[t].retval)), t, false).1
    {
      ghost var was := pool[..];
      bury := MarkDead(t);
      AgreeKeepsSched(was, pool[..], slotOf[..], rows);
    }

    /** All that `Valid` says but for the schedule's being in order. */
    ghost predicate Framed()
      reads this, schedule, atPrio, currIdx
    {
      Shape() && Sized() && Mirrors() && Cursors()
    }

    /** The steps of a burial. */
    method Unseat(t: nat)
      requires Valid() && S.Seated(View(), t)
      modifies `procsInUse, `rows, `table, pool, slotOf, schedule, atPrio, currIdx
      ensures Framed() && pool[..] == Buried(old(pool[..]), t)
      ensures S.Next(old(View()), S.Burial(t), View())
    {
      ghost var was := pool[..];
      procsInUse := procsInUse - 1;
      LeaveRow(pool[t].prio, slotOf[t]);
      pool[t] := pool[t].(valid := false);
      assert pool[..] == Buried(was, t);
    }

    /** tk_delete_thread, for a thread that is buried. */
    method Bury(t: nat)
      requires Valid() && 0 < t < pool.Length && pool[t].valid
      requires pool[t].prio < |rows| ==> InBounds(pool[t].prio)
      modifies `procsInUse, `rows, `table, pool, slotOf, schedule, atPrio, currIdx
      ensures S.Seated(old(View()), t) && pool[..] == Buried(old(pool[..]), t)
      ensures S.Next(old(View()), S.Burial(t), View())
      ensures Valid() <==> !old(Spills(pool[t].prio))
    {
      assert ThreadOk(pool[..], slotOf[..], rows, t);
      assert schedule[pool[t].prio, slotOf[t]] == t;
      ghost var w := View();
      Unseat(t);
      S.StepKeepsInvIff(w, S.Burial(t), View());
    }

    /** tk_delete_thread.  The root is covered as long as it has no children: it is not buried
        then. */
    method DeleteThread(t: nat) returns (ok: bool)
      requires Valid() && Fam(pool[..], idle) && t < pool.Length
      requires t == 0 ==> pool[0].gid == 0 && pool[0].noChilds <= 0
      requires pool[t].prio < |rows| ==> InBounds(pool[t].prio)
      modifies `procsInUse, `rows, `table, pool, slotOf, schedule, atPrio, currIdx
      ensures ok == old(pool[t].valid)
      ensures !ok ==> pool[..] == old(pool[..]) && rows == old(rows) && Valid()
      ensures ok ==> pool[..] == Deleted(old(pool[..]), t).0
      ensures ok && !Deleted(old(pool[..]), t).1 ==> rows == old(rows) && Valid()
      ensures ok && Deleted(old(pool[..]), t).1 ==> t != 0 && S.Seated(old(View()), t)
      ensures ok && Deleted(old(pool[..]), t).1 ==> rows == Left(old(rows), old(pool[t].prio), old(slotOf[t]))
      ensures ok && Deleted(old(pool[..]), t).1 ==> (Valid() <==> !old(Spills(pool[t].prio)))
    {
      if !pool[t].valid {
        return false;
      }
      assert ThreadOk(pool[..], slotOf[..], rows, t);
      var bury := true;
      if !pool[t].state.zombi {
        bury := Kill(t);
      }
      if bury {
        Bury(t);
      }
      return true;
    }

    /** tk_change_prio.  The result on success says whether the caller should yield.  The root
        is covered as long as it is not to leave its row. */
    method ChangePrio(t: nat, newPrio: nat) returns (r: Outcome)
      requires Valid() && t < pool.Length
      requires t == 0 ==> newPrio == 0 || newPrio >= schedule.Length0 || |rows[newPrio]| >= schedule.Length1
      requires pool[t].valid && pool[t].prio < |rows| ==> InBounds(pool[t].prio)
      modifies pool, slotOf, schedule, atPrio, currIdx, `rows, `table
      ensures r.Exits? <==> (!old(pool[t].valid) || newPrio >= schedule.Length0 || old(|rows[newPrio]|) >= schedule.Length1)
      ensures r.Exits? ==>
        && (TC_TCB_INVALID in r.flags <==> !old(pool[t].valid))
        && (TC_MAX_PRIO_LEVELS in r.flags <==> newPrio >= schedule.Length0)
        && (TC_THREADS_AT_PRIO in r.flags <==> newPrio < schedule.Length0 && old(|rows[newPrio]|) >= schedule.Length1)
      ensures r.Exits? || old(pool[t].prio) == newPrio ==>
        Valid() && pool[..] == old(pool[..]) && rows == old(rows)
      ensures r.Returns? && old(pool[t].prio) != newPrio ==>
        && pool[..] == old(pool[..])[t := old(pool[t]).(prio := newPrio)]
        && S.Next(old(View()), S.Move(t, newPrio), View())
        && old(pool[t].prio < |rows|)
        && (Valid() <==> !old(Spills(pool[t].prio)))
      ensures r.Returns? ==> (r.value == 1 <==>
        old(pool[t].state) == READY && old(pool[t].prio) != newPrio && (newPrio > old(pool[t].prio) || active == t))
      ensures r.Returns? ==> r.value == 0 || r.value == 1
    {
      var error := {};
      if !pool[t].valid {
        error := error + {TC_TCB_INVALID};
      }
      if newPrio >= schedule.Length0 {
        error := error + {TC_MAX_PRIO_LEVELS};
      }
      if newPrio < schedule.Length0 && schedule.Length1 <= atPrio[newPrio] {
        error := error + {TC_THREADS_AT_PRIO};
      }
      if error != {} {
        return Exits(error);
      }
      assert ThreadOk(pool[..], slotOf[..], rows, t);
      var oldPrio := pool[t].prio;
      if oldPrio == newPrio {
        return Returns(0);
      }
      var y := if pool[t].state != READY then 0 else if newPrio > oldPrio then 1 else if active == t then 1 else 0;
      Move(t, newPrio);
      return Returns(y);
    }

    /** The steps of a move between rows. */
    method Reseat(t: nat, newPrio: nat)
      requires Valid() && S.Seated(View(), t)
      requires newPrio < |rows| && newPrio != pool[t].prio && |rows[newPrio]| < schedule.Length1
      modifies pool, slotOf, schedule, atPrio, currIdx, `rows, `table
      ensures Framed() && pool[..] == old(pool[..])[t := old(pool[t]).(prio := newPrio)]
      ensures S.Next(old(View()), S.Move(t, newPrio), View())
    {
      ghost var w := View();
      LeaveRow(pool[t].prio, slotOf[t]);
      ghost var slots, cells := slotOf[..], table;
      var newIdx := atPrio[newPrio];
      EnterRow(newPrio, t);
      pool[t] := pool[t].(prio := newPrio);
      slotOf[t] := newIdx;
      assert pool[..] == w.pool[t := w.pool[t].(prio := newPrio)];
      assert slotOf[..] == slots[t := |w.rows[newPrio]|];
      assert S.Moved(w, t, newPrio, View(), slots, cells);
    }

    method Move(t: nat, newPrio: nat)
      requires Valid() && S.Seated(View(), t)
      requires newPrio < |rows| && newPrio != pool[t].prio && |rows[newPrio]| < schedule.Length1
      modifies pool, slotOf, schedule, atPrio, currIdx, `rows, `table
      ensures pool[..] == old(pool[..])[t := old(pool[t]).(prio := newPrio)]
      ensures S.Next(old(View()), S.Move(t, newPrio), View())
      ensures Valid() <==> !old(Spills(pool[t].prio))
    {
      ghost var w := View();
      Reseat(t, newPrio);
      S.StepKeepsInvIff(w, S.Move(t, newPrio), View());
    }

    /** The search for a free control block, in circular order from the last one taken. */
    method FindFree()
      requires procIdx < pool.Length && Valids(pool[..]) < pool.Length
      modifies `procIdx
      ensures procIdx < pool.Length && NextFree(pool[..], old(procIdx), procIdx)
    {
      ghost var free := SomeFree(pool[..]);
      ghost var from := procIdx;
      ghost var far: nat := if free > from then free - from else free - from + pool.Length;
      NextIndex(procIdx, pool.Length);
      procIdx := (procIdx + 1) % pool.Length;
      ghost var k: nat := 1;
      while pool[procIdx].valid
        invariant 1 <= k <= far && procIdx == Around(from, k, pool.Length)
        invariant forall l :: 1 <= l < k ==> pool[Around(from, l, pool.Length)].valid
        decreases far - k
      {
        NextIndex(procIdx, pool.Length);
        procIdx := (procIdx + 1) % pool.Length;
        k := k + 1;
      }
      assert FreeAfter(pool[..], from, k);
    }

    /** Fill in the control block of a new thread; the running thread gets a child. */
    method Fill(t: nat, prio: nat, arg: int)
      requires t < pool.Length && active < pool.Length
      modifies pool
      ensures pool[..] == Created(old(pool[..]), t, active, prio, arg)
    {
      ghost var was := pool[..];
      pool[t] := Tcb(t, active, 0, true, READY, OnSched(NIL), pool[t].wakeuptime, E_NONE, arg, prio);
      ghost var q := pool[..];
      pool[active] := pool[active].(noChilds := pool[active].noChilds + 1);
      assert pool[..] == q[active := q[active].(noChilds := q[active].noChilds + 1)];
    }

    method CreateErrors(prio: nat) returns (error: set<Flag>)
      requires Shape() && Sized()
      ensures error <= {TC_MAX_THREADS, TC_MAX_PRIO_LEVELS, TC_THREADS_AT_PRIO}
      ensures TC_MAX_THREADS in error <==> procsInUse >= pool.Length
      ensures TC_MAX_PRIO_LEVELS in error <==> prio >= schedule.Length0
      ensures TC_THREADS_AT_PRIO in error <==> prio < schedule.Length0 && |rows[prio]| >= schedule.Length1
    {
      error := {};
      if procsInUse >= pool.Length {
        error := error + {TC_MAX_THREADS};
      }
      if prio >= schedule.Length0 {
        error := error + {TC_MAX_PRIO_LEVELS};
      }
      if prio < schedule.Length0 && schedule.Length1 <= atPrio[prio] {
        error := error + {TC_THREADS_AT_PRIO};
      }
    }

    /** tk_create_thread; `nameFits` and `stackOk` say whether the name is short enough and
        whether there is memory for the stack. */
    method CreateThread(prio: nat, arg: int, nameFits: bool, stackOk: bool) returns (r: Outcome)
      requires Valid()
      modifies this, pool, slotOf, schedule, atPrio
      ensures idle == old(idle) && active == old(active)
      ensures r.Exits? <==>
        (old(procsInUse) >= pool.Length || prio >= schedule.Length0 || old(|rows[prio]|) >= schedule.Length1
         || !nameFits || !stackOk)
      ensures r.Exits? ==> Valid() && pool[..] == old(pool[..]) && rows == old(rows)
      ensures r.Exits? ==>
        && (TC_MAX_THREADS in r.flags <==> old(Valids(pool[..])) == pool.Length)
        && (TC_MAX_PRIO_LEVELS in r.flags <==> prio >= schedule.Length0)
        && (TC_THREADS_AT_PRIO in r.flags <==> prio < schedule.Length0 && old(|rows[prio]|) >= schedule.Length1)
        && var room := old(procsInUse) < pool.Length && prio < schedule.Length0 && old(|rows[prio]|) < schedule.Length1;
           && (TC_NAME_LEN in r.flags <==> room && !nameFits)
           && (TC_NOMEM in r.flags <==> room && nameFits && !stackOk)
      ensures r.Returns? ==>
        && Valid() && 0 < r.value < pool.Length && NextFree(old(pool[..]), old(procIdx), r.value)
        && pool[..] == Created(old(pool[..]), r.value, active, prio, arg)
        && rows == Entered(old(rows), prio, r.value)
      ensures r.Returns? && old(pool[active].valid) ==> NewChild(old(pool[..]), pool[..], r.value, active, prio, arg)
    {
      ghost var was := pool[..];
      ValidsBound(pool[..]);
      assert procsInUse == Valids(pool[..]);
      hide S.Inv;
      var error := CreateErrors(prio);
      if error != {} {
        return Exits(error);
      }
      FindFree();
      if !nameFits {
        return Exits({TC_NAME_LEN});
      }
      if !stackOk {
        return Exits({TC_NOMEM});
      }
      Install(prio, arg);
      if was[active].valid {
        CreatedIsNew(was, procIdx, active, prio, arg);
      }
      return Returns(procIdx);
    }

    /** The steps of a birth. */
    method SeatNew(prio: nat, arg: int)
      requires Valid() && prio < |rows| && |rows[prio]| < schedule.Length1 && !pool[procIdx].valid && procIdx > 0
      modifies pool, slotOf, schedule, atPrio, `procsInUse, `rows, `table
      ensures Framed() && pool[..] == Created(old(pool[..]), procIdx, active, prio, arg)
      ensures S.Next(old(View()), S.Birth(procIdx), View())
    {
      Fill(procIdx, prio, arg);
      procsInUse := procsInUse + 1;
      Seat(prio, procIdx);
    }

    method Install(prio: nat, arg: int)
      requires Valid() && prio < |rows| && |rows[prio]| < schedule.Length1 && !pool[procIdx].valid
      modifies pool, slotOf, schedule, atPrio, `procsInUse, `rows, `table
      ensures Valid() && procIdx > 0
      ensures pool[..] == Created(old(pool[..]), procIdx, active, prio, arg)
      ensures S.Next(old(View()), S.Birth(procIdx), View())
    {
      ghost var w := View();
      SeatNew(prio, arg);
      S.StepKeepsInvIff(w, S.Birth(procIdx), View());
    }

    /** The thread notes its slot and takes it. */
    method Seat(prio: nat, t: nat)
      requires Shape() && Sized() && Mirrors() && prio < |rows| && |rows[prio]| < schedule.Length1 && t < slotOf.Length
      modifies slotOf, schedule, atPrio, `rows, `table
      ensures Shape() && Sized() && Mirrors() && rows == Entered(old(rows), prio, t)
      ensures table == S.Put(old(table), prio, old(|rows[prio]|), t)
      ensures slotOf[..] == old(slotOf[..])[t := old(|rows[prio]|)]
    {
      slotOf[t] := atPrio[prio];
      EnterRow(prio, t);
    }

    /** What the dispatcher reads is in order. */
    ghost predicate Readable()
      reads this, pool, slotOf, schedule, atPrio, currIdx
    {
      Shape() && Table() && Sched(pool[..], slotOf[..], rows) && Cursors()
    }

    /** One row of the search of _tk_next_runable_thread, with its assertions. */
    method ScanRow(prio: nat, last: int) returns (found: bool, t: int, last': int, ghost k: nat)
      requires Readable() && prio < |rows| && rows[prio] != []
      requires last == -1 || (0 <= last < pool.Length && pool[last].prio < prio)
      ensures found ==> k < |rows[prio]| && t == rows[prio][Around(currIdx[prio], k, |rows[prio]|)] && Ready(pool[..], t)
      ensures found ==> forall l :: 0 <= l < k ==> !Ready(pool[..], rows[prio][Around(currIdx[prio], l, |rows[prio]|)])
      ensures !found ==> NoneReady(pool[..], rows[prio])
      ensures 0 <= last' < pool.Length && pool[last'].prio == prio
    {
      var n := atPrio[prio];
      var idx := currIdx[prio];
      var loop := 0;
      found, t, last', k := false, -1, last, 0;
      while loop < n && !found
        invariant 0 <= loop <= n && 0 <= idx < n && idx == Around(currIdx[prio], loop, n)
        invariant last' == if loop == 0 then last else rows[prio][Around(currIdx[prio], loop - 1, n)]
        invariant !found ==> forall l :: 0 <= l < loop ==> !Ready(pool[..], rows[prio][Around(currIdx[prio], l, n)])
        invariant found ==> k < loop && t == rows[prio][Around(currIdx[prio], k, n)] && Ready(pool[..], t)
        invariant found ==> forall l :: 0 <= l < k ==> !Ready(pool[..], rows[prio][Around(currIdx[prio], l, n)])
      {
        assert SlotOk(pool[..], slotOf[..], rows, prio, idx);
        assert pool[schedule[prio, idx]].valid;
        if loop > 0 {
          assert SlotOk(pool[..], slotOf[..], rows, prio, Around(currIdx[prio], loop - 1, n));
        }
        assert ThreadOk(pool[..], slotOf[..], rows, rows[prio][idx]);
        assert pool[schedule[prio, idx]].thid != last';
        last' := pool[schedule[prio, idx]].thid;
        if pool[schedule[prio, idx]].state == READY {
          t := schedule[prio, idx];
          found := true;
          k := loop;
        }
        NextIndex(idx, n);
        idx := idx + 1;
        idx := idx % n;
        loop := loop + 1;
      }
      if !found {
        WholeTurn(pool[..], rows[prio], currIdx[prio]);
      }
      assert SlotOk(pool[..], slotOf[..], rows, prio, Around(currIdx[prio], loop - 1, n));
    }

    /** _tk_next_runable_thread. */
    method NextRunable() returns (r: int)
      requires Readable() && pool[idle].valid && pool[idle].state == READY
      ensures Dispatched(pool[..], rows, currIdx[..], r)
      ensures 0 <= r < pool.Length
    {
      r := idle;
      var found := false;
      var last := -1;
      var prio := 0;
      while prio < schedule.Length0 && !found
        invariant 0 <= prio <= |rows|
        invariant found ==> Dispatched(pool[..], rows, currIdx[..], r) && 0 <= r < pool.Length
        invariant !found ==> forall q :: 0 <= q < prio ==> NoneReady(pool[..], rows[q])
        invariant last == -1 || (0 <= last < pool.Length && pool[last].prio < prio)
      {
        if atPrio[prio] != 0 {
          var t: int;
          ghost var k: nat;
          found, t, last, k := ScanRow(prio, last);
          if found {
            r := t;
            assert Picks(pool[..], rows, currIdx[..], prio, k);
          }
        }
        prio := prio + 1;
      }
      if !found {
        ExactlyOneSlot(pool[..], slotOf[..], rows, idle);
      }
    }

    /** The timer's part of _tk_wakeup_timedout_threads for thread `i`. */
    method TimeOut(i: nat, now: int)
      requires Valid() && i < pool.Length
      modifies pool
      ensures Valid() && pool[..] == old(pool[..])[i := TimedOut(old(pool[i]), now)]
    {
      ghost var was := pool[..];
      if pool[i].valid && pool[i].state.sleep && now - pool[i].wakeuptime >= 0 {
        pool[i] := pool[i].(state := pool[i].state.(queue := false, sleep := false), wakeupEvent := E_TIMER);
      }
      assert pool[..] == was[i := TimedOut(was[i], now)];
      AgreeKeepsSched(was, pool[..], slotOf[..], rows);
    }

    /** A zombie lets go of its parent. */
    method LetGo(i: nat) returns (detached: bool)
      requires Valid() && Fam(pool[..], idle) && i < pool.Length
      requires pool[i].valid && pool[i].state.zombi
      modifies pool
      ensures Valid() && Fam(pool[..], idle) && Agree(old(pool[..]), pool[..])
      ensures pool[..] == TryDetach(old(pool[..]), i, false).0
      ensures detached == TryDetach(old(pool[..]), i, false).1
      ensures pool[i].valid && pool[i].state.zombi
    {
      ghost var was := pool[..];
      TryDetachKeepsFam(was, idle, i, false);
      DetachedZombie(was, idle, i);
      TryDetachAgrees(was, i, false);
      if pool[i].gid != -1 {
        ParentCounts(was, idle, i);
      }
      detached := TryDetachParent(i, false);
      AgreeKeepsSched(was, pool[..], slotOf[..], rows);
    }

    /** The second half of _tk_wakeup_timedout_threads for thread `i`: it is buried if it is a
        zombie that its parent has let go of. */
    method BuryDead(i: nat)
      requires Valid() && Fam(pool[..], idle) && i < pool.Length
      requires Dies(pool[..], i, active) && pool[i].prio < |rows| ==> InBounds(pool[i].prio)
      modifies pool, slotOf, schedule, atPrio, currIdx, `procsInUse, `rows, `table
      ensures pool[..] == Cleared(old(pool[..]), i, active)
      ensures rows == if Dies(old(pool[..]), i, active) then Dropped(old(rows), old(pool[i].prio), i) else old(rows)
      ensures old(Dies(pool[..], i, active)) ==> old(pool[i].prio < |rows|)
      ensures Valid() <==> !(old(Dies(pool[..], i, active)) && old(Spills(pool[i].prio)))
    {
      assert ThreadOk(pool[..], slotOf[..], rows, i);
      if pool[i].valid && pool[i].state.zombi && i != active {
        var detached := LetGo(i);
        if detached {
          ghost var w := View();
          var _ := DeleteThread(i);
          DroppedIs(w.pool, w.slots, w.rows, i);
        }
      }
    }

    /** _tk_wakeup_timedout_threads for thread `i`. */
    method TickThread(i: nat, now: int)
      requires Valid() && Fam(pool[..], idle) && i < pool.Length
      requires Buries(pool[..], i, now, active) && pool[i].prio < |rows| ==> InBounds(pool[i].prio)
      modifies pool, slotOf, schedule, atPrio, currIdx, `procsInUse, `rows, `table
      ensures pool[..] == TickOne(old(pool[..]), i, now, active) && Fam(pool[..], idle)
      ensures rows == if Buries(old(pool[..]), i, now, active) then Dropped(old(rows), old(pool[i].prio), i) else old(rows)
      ensures old(Buries(pool[..], i, now, active)) ==> old(pool[i].prio < |rows|)
      ensures Valid() <==> !(old(Buries(pool[..], i, now, active)) && old(Spills(pool[i].prio)))
      ensures InTimeAt(old(pool[..]), pool[..], i, now)
    {
      OneInTime(pool[..], idle, i, now, active);
      TickOneKeepsFam(pool[..], idle, i, now, active);
      TimedOutKeepsFam(pool[..], idle, i, now);
      TimeOut(i, now);
      BuryDead(i);
    }

    /** _tk_wakeup_timedout_threads; `stop` is where the scan is cut short by a request for a
        switch, or the number of threads.  Each burial must find room in its row when its turn
        comes. */
    method WakeUp(now: int, stop: nat)
      requires Valid() && Fam(pool[..], idle) && stop <= pool.Length
      requires Fits(pool[..], rows, schedule.Length1, stop, now, active)
      modifies pool, slotOf, schedule, atPrio, currIdx, `procsInUse, `rows, `table
      ensures Valid() && Fam(pool[..], idle)
      ensures pool[..] == Ticked(old(pool[..]), stop, now, active)
      ensures rows == RowsAfter(old(pool[..]), old(rows), stop, now, active)
      ensures InTime(old(pool[..]), pool[..], stop, now)
    {
      hide S.Inv;
      TimersRun(pool[..], idle, stop, now, active);
      ghost var p0, r0 := pool[..], rows;
      for i := 0 to stop
        invariant Valid() && Fam(pool[..], idle) && Passed(p0, r0, i, now)
      {
        TickStep(p0, r0, i, now);
      }
    }

    /** How far the timer's pass has come since the pool was `p0` and the rows were `r0`. */
    ghost predicate Passed(p0: seq<Tcb>, r0: seq<seq<int>>, i: nat, now: int)
      reads this, pool
    {
      && i <= |p0| == pool.Length && Gids(p0)
      && pool[..] == Ticked(p0, i, now, active) && rows == RowsAfter(p0, r0, i, now, active)
    }

    method TickStep(ghost p0: seq<Tcb>, ghost r0: seq<seq<int>>, i: nat, now: int)
      requires Valid() && Fam(pool[..], idle) && i < pool.Length && Passed(p0, r0, i, now)
      requires FitsAt(p0, r0, schedule.Length1, i, now, active)
      modifies pool, slotOf, schedule, atPrio, currIdx, `procsInUse, `rows, `table
      ensures Valid() && Fam(pool[..], idle) && Passed(p0, r0, i + 1, now)
    {
      TickThread(i, now);
    }

    /** The thread to run next becomes the running one. */
    method Dispatch()
      requires Valid() && pool[idle].valid && pool[idle].state == READY
      modifies `active
      ensures Valid() && Dispatched(pool[..], rows, currIdx[..], active)
    {
      var r := NextRunable();
      active := r;
    }

    /** tk_yield: the timed-out wake up, the free dead are buried, and the first ready thread
        of the highest priority runs. */
    method Yield(now: int, stop: nat)
      requires Valid() && Fam(pool[..], idle) && stop <= pool.Length
      requires Fits(pool[..], rows, schedule.Length1, stop, now, active)
      modifies pool, slotOf, schedule, atPrio, currIdx, `procsInUse, `rows, `table, `active
      ensures Valid() && Fam(pool[..], idle)
      ensures pool[..] == Ticked(old(pool[..]), stop, now, old(active))
      ensures rows == RowsAfter(old(pool[..]), old(rows), stop, now, old(active))
      ensures InTime(old(pool[..]), pool[..], stop, now)
      ensures Dispatched(pool[..], rows, currIdx[..], active)
    {
      hide S.Inv;
      WakeUp(now, stop);
      Dispatch();
    }

    /** tk_msleep up to its yield. */
    method Msleep(wakeuptime: int)
      requires Valid()
      modifies pool
      ensures Valid() && pool[..] == old(pool[..])[active := Asleep(old(pool[active]), wakeuptime)]
      ensures var x := old(pool[active]);
        pool[active] == x.(state := x.state.(sleep := true), wakeuptime := wakeuptime)
    {
      ghost var was := pool[..];
      pool[active] := pool[active].(wakeuptime := wakeuptime);
      pool[active] := pool[active].(state := pool[active].state.(sleep := true));
      assert pool[..] == was[active := Asleep(was[active], wakeuptime)];
      AgreeKeepsSched(was, pool[..], slotOf[..], rows);
    }

    method TryJoin(c: nat) returns (r: JoinOutcome)
      requires active < pool.Length && Fam(pool[..], idle) && c < pool.Length
      requires pool[active].valid && pool[active].state == READY && active != idle
      modifies pool
      ensures Fam(pool[..], idle) && Agree(old(pool[..]), pool[..])
      ensures old(pool[c].gid) != active ==> r == EINVAL && pool[..] == old(pool[..])
      ensures old(pool[c].gid) == active && !old(pool[c].valid) ==> r == ESRCH && pool[..] == old(pool[..])
      ensures old(pool[c].gid) == active && old(pool[c].valid && pool[c].state.zombi) ==>
        r == Value(old(pool[c].retval)) && pool[..] == TryDetach(old(pool[..]), c, true).0
      ensures old(pool[c].gid) == active && old(pool[c].valid && !pool[c].state.zombi) ==>
        r == Waits && pool[..] == Joining(old(pool[..]), active, c)
    {
      ghost var was := pool[..];
      if pool[c].gid != active {
        return EINVAL;
      }
      if !pool[c].valid {
        return ESRCH;
      }
      if pool[c].state.zombi {
        r := Value(pool[c].retval);
        ParentCounts(was, idle, c);
        TryDetachKeepsFam(was, idle, c, true);
        TryDetachAgrees(was, c, true);
        var _ := TryDetachParent(c, true);
      } else {
        JoinKeepsFam(was, idle, active, c);
        pool[active] := pool[active].(bOn := OnSched(c));
        pool[active] := pool[active].(state := pool[active].state.(term := true));
        assert pool[..] == Joining(was, active, c);
        r := Waits;
      }
    }

    /** tk_join, up to its wait.  The caller is the running thread. */
    method Join(c: nat) returns (r: JoinOutcome)
      requires Valid() && Fam(pool[..], idle) && c < pool.Length
      requires pool[active].valid && pool[active].state == READY && active != idle
      modifies pool
      ensures Valid() && Fam(pool[..], idle)
      ensures old(pool[c].gid) != active ==> r == EINVAL && pool[..] == old(pool[..])
      ensures old(pool[c].gid) == active && !old(pool[c].valid) ==> r == ESRCH && pool[..] == old(pool[..])
      ensures old(pool[c].gid) == active && old(pool[c].valid && pool[c].state.zombi) ==>
        r == Value(old(pool[c].retval)) && pool[..] == TryDetach(old(pool[..]), c, true).0
      ensures old(pool[c].gid) == active && old(pool[c].valid && !pool[c].state.zombi) ==>
        r == Waits && pool[..] == Joining(old(pool[..]), active, c)
      ensures var x := old(pool[active]);
        r == Waits ==> pool[active] == x.(state := x.state.(term := true), bOn := OnSched(c))
      ensures r.Value? ==> pool[c].gid == -1 && pool[active].noChilds == old(pool[active].noChilds) - 1
    {
      ghost var was := pool[..];
      r := TryJoin(c);
      AgreeKeepsSched(was, pool[..], slotOf[..], rows);
    }

    /** _tk_destructor up to its first yield, from which the thread does not come back. */
    method Destructor(v: int, wakeuptime: int)
      requires Valid() && Gids(pool[..])
      modifies pool
      ensures Valid()
      ensures var r := Died(old(pool[..]), active, v); pool[..] == r[active := Asleep(r[active], wakeuptime)]
    {
      ghost var was := pool[..];
      DiedStill(was, active, v);
      pool[active] := pool[active].(state := ZOMBI);
      pool[active] := pool[active].(retval := v);
      assert pool[..] == was[active := was[active].(state := ZOMBI, retval := v)];
      DetachChildren(active);
      AgreeKeepsSched(was, pool[..], slotOf[..], rows);
      Msleep(wakeuptime);
    }
  }

  /** Of the first `n` threads all that slept and whose time has come are awake, with E_TIMER, and
      all other sleepers sleep on; only the dead may be gone. */
  ghost predicate InTime(was: seq<Tcb>, pool: seq<Tcb>, n: nat, now: int)
    requires n <= |was| == |pool|
  {
    forall i :: 0 <= i < n ==> InTimeAt(was, pool, i, now)
  }

  ghost predicate InTimeAt(was: seq<Tcb>, pool: seq<Tcb>, i: nat, now: int)
    requires i < |was| == |pool|
  {
    was[i].valid && was[i].state.sleep ==>
      && (!was[i].state.zombi ==> pool[i].valid)
      && (pool[i].valid ==>
            if was[i].wakeuptime <= now then
              pool[i].state == (if was[i].state.zombi then ZOMBI else READY) && pool[i].wakeupEvent == E_TIMER
            else pool[i].state == was[i].state && pool[i].wakeuptime == was[i].wakeuptime)
  }

  lemma OneInTime(pool: seq<Tcb>, idle: nat, i: nat, now: int, active: int)
    requires Fam(pool, idle) && i < |pool|
    ensures InTimeAt(pool, TickOne(pool, i, now, active), i, now)
  {
    assert Member(pool, idle, i);
    if pool[i].valid && pool[i].state.sleep {
      TickOneTimed(pool, idle, i, now, active);
    }
  }

  /** The pass buries thread `i` when it comes to it exactly if it is dead, does not run, and its
      parent has let go of it, or waits for it. */
  lemma BuriesIff(pool: seq<Tcb>, idle: nat, i: nat, now: int, active: int)
    requires Fam(pool, idle) && i < |pool|
    ensures Buries(pool, i, now, active) <==>
      pool[i].valid && pool[i].state.zombi && i != active && Detachable(pool, i)
  {
    if pool[i].valid && pool[i].state.zombi {
      TickOneBuriesIff(pool, idle, i, now, active);
    }
  }

  lemma TimersRun(pool: seq<Tcb>, idle: nat, n: nat, now: int, active: int)
    requires Fam(pool, idle) && n <= |pool|
    ensures InTime(pool, Ticked(pool, n, now, active), n, now)
  {
    forall i | 0 <= i < n ensures InTimeAt(pool, Ticked(pool, n, now, active), i, now) {
      assert Member(pool, idle, i);
      if pool[i].valid && pool[i].state.sleep {
        TickTimes(pool, idle, n, now, active, i);
      }
    }
  }

  /** Thread `i` is dead, not running, and its parent has let go of it or waits for it. */
  predicate Dies(pool: seq<Tcb>, i: nat, active: int)
    requires i < |pool| && GidOk(pool[i], |pool|)
  {
    pool[i].valid && pool[i].state.zombi && i != active && TryDetach(pool, i, false).1
  }

  /** What the burial of the dead does with thread `i`. */
  function Cleared(pool: seq<Tcb>, i: nat, active: int): seq<Tcb>
    requires i < |pool| && GidOk(pool[i], |pool|)
  {
    if pool[i].valid && pool[i].state.zombi && i != active then
      var (q, detached) := TryDetach(pool, i, false);
      if detached then Buried(q, i) else q
    else pool
  }

  /** Thread `i` is buried when the timer's pass comes to it. */
  predicate Buries(pool: seq<Tcb>, i: nat, now: int, active: int)
    requires i < |pool| && Gids(pool)
  {
    Dies(pool[i := TimedOut(pool[i], now)], i, active)
  }

  function Dropped(rows: seq<seq<int>>, p: nat, t: int): (r: seq<seq<int>>)
    ensures |r| == |rows|
  {
    if p < |rows| then rows[p := Drop(rows[p], t)] else rows
  }

  lemma DroppedIs(pool: seq<Tcb>, slots: seq<int>, rows: seq<seq<int>>, t: nat)
    requires Sched(pool, slots, rows) && 0 < t < |pool| && pool[t].valid && ThreadOk(pool, slots, rows, t)
    ensures Dropped(rows, pool[t].prio, t) == Left(rows, pool[t].prio, slots[t])
  {
    var p, j := pool[t].prio, slots[t];
    forall k | 0 <= k < j ensures rows[p][k] != t {
      assert SlotOk(pool, slots, rows, p, k);
    }
    DropIs(rows[p], t, j);
  }

  /** The rows after the timer's pass over the first `n` threads. */
  function RowsAfter(pool: seq<Tcb>, rows: seq<seq<int>>, n: nat, now: int, active: int): (r: seq<seq<int>>)
    requires n <= |pool| && Gids(pool)
    ensures |r| == |rows|
  {
    if n == 0 then rows
    else
      var q, r := Ticked(pool, n - 1, now, active), RowsAfter(pool, rows, n - 1, now, active);
      if Buries(q, n - 1, now, active) then Dropped(r, q[n - 1].prio, n - 1) else r
  }

  /** If the pass buries thread `i`, its row has room by then, or the next row is empty. */
  ghost predicate FitsAt(pool: seq<Tcb>, rows: seq<seq<int>>, width: nat, i: nat, now: int, active: int)
    requires i < |pool| && Gids(pool)
  {
    var q, r := Ticked(pool, i, now, active), RowsAfter(pool, rows, i, now, active);
    Buries(q, i, now, active) && q[i].prio < |r| ==> Inside(r, width, q[i].prio) && !Spilling(r, width, q[i].prio)
  }

  ghost predicate Fits(pool: seq<Tcb>, rows: seq<seq<int>>, width: nat, n: nat, now: int, active: int)
    requires n <= |pool| && Gids(pool)
  {
    forall i :: 0 <= i < n ==> FitsAt(pool, rows, width, i, now, active)
  }

  lemma {:induction false} DropNoLonger(row: seq<int>, t: int)
    ensures |Drop(row, t)| <= |row|
  {
    if row != [] {
      DropNoLonger(row[1..], t);
    }
  }

  lemma {:induction false} StaysRoomy(pool: seq<Tcb>, rows: seq<seq<int>>, width: nat, idle: nat, n: nat, now: int, active: int)
    requires Fam(pool, idle) && n <= |pool| && Roomy(pool, rows, width)
    ensures Fam(Ticked(pool, n, now, active), idle)
    ensures Roomy(Ticked(pool, n, now, active), RowsAfter(pool, rows, n, now, active), width)
  {
    if n > 0 {
      StaysRoomy(pool, rows, width, idle, n - 1, now, active);
      var q, r := Ticked(pool, n - 1, now, active), RowsAfter(pool, rows, n - 1, now, active);
      TickOneKeepsFam(q, idle, n - 1, now, active);
      TickOneZombies(q, idle, n - 1, now, active);
      if q[n - 1].prio < |r| {
        DropNoLonger(r[q[n - 1].prio], n - 1);
      }
      RoomyKept(q, Ticked(pool, n, now, active), r, RowsAfter(pool, rows, n, now, active), width);
    }
  }

  /** It is enough that no zombie sits in a full row. */
  lemma RoomyFits(pool: seq<Tcb>, rows: seq<seq<int>>, width: nat, idle: nat, n: nat, now: int, active: int)
    requires Fam(pool, idle) && n <= |pool| && Roomy(pool, rows, width)
    ensures Fits(pool, rows, width, n, now, active)
  {
    forall i | 0 <= i < n ensures FitsAt(pool, rows, width, i, now, active) {
      StaysRoomy(pool, rows, width, idle, i, now, active);
    }
  }

  /** The error flags with which the kernel gives up. */
  datatype Flag =
    | TC_MAX_THREADS | TC_MAX_PRIO_LEVELS | TC_THREADS_AT_PRIO | TC_TCB_INVALID | TC_NAME_LEN | TC_NOMEM

  datatype JoinOutcome = EINVAL | ESRCH | Value(value: int) | Waits

  datatype Outcome = Returns(value: int) | Exits(flags: set<Flag>)

  lemma NextIndex(i: nat, n: nat)
    requires i < n
    ensures (i + 1) % n == Around(i, 1, n)
  {
    if i + 1 == n {
      assert n % n == 0;
    }
  }

  lemma OneValid(pool: seq<Tcb>)
    requires |pool| > 0 && pool[0].valid && forall i :: 1 <= i < |pool| ==> !pool[i].valid
    ensures Valids(pool) == 1
  {
    var none := pool[0 := EMPTY];
    NoneValid(none);
    ValidsUpdate(none, 0, pool[0]);
    assert pool == none[0 := pool[0]];
  }

  lemma FirstFree(pool: seq<Tcb>, t: nat)
    requires |pool| >= 2 && NextFree(pool, 0, t) && !pool[1].valid
    ensures t == 1
  {
    var k: nat :| FreeAfter(pool, 0, k) && t == Around(0, k, |pool|);
    assert Around(0, 1, |pool|) == 1;
  }

  lemma NoneValid(pool: seq<Tcb>)
    requires forall i :: 0 <= i < |pool| ==> !pool[i].valid
    ensures Valids(pool) == 0
  {
    SumBits(ValidMarks(pool));
  }

  lemma NoneLive(rows: seq<seq<int>>)
    requires forall p :: 0 <= p < |rows| ==> rows[p] == []
    ensures Lives(rows) == 0
  {
    SumBits(Lengths(rows));
  }

  /** The state a kernel starts in is in order. */
  lemma Started(pool: seq<Tcb>, slots: seq<int>, rows: seq<seq<int>>)
    requires |pool| == |slots| && |pool| >= 2 && |rows| >= 2 && slots[1] == 0
    requires forall p :: 0 <= p < |rows| ==> rows[p] == if p == 0 then [0] else if p == |rows| - 1 then [1] else []
    requires pool[0] == EMPTY.(state := READY, valid := true)
    requires pool[1] == EMPTY.(state := READY, valid := true, thid := 1, gid := 1, prio := |rows| - 1)
    requires forall i :: 2 <= i < |pool| ==> pool[i] == EMPTY
    ensures Sched(pool, slots, rows) && Fam(pool, 1)
    ensures Valids(pool) == Lives(rows) == 2
  {
    var one := pool[1 := EMPTY];
    OneValid(one);
    ValidsUpdate(one, 1, pool[1]);
    assert pool == one[1 := pool[1]];
    var l := |rows| - 1;
    var none := rows[0 := []][l := []];
    NoneLive(none);
    LivesUpdate(none, 0, [0]);
    LivesUpdate(none[0 := [0]], l, [1]);
    assert rows == none[0 := [0]][l := [1]];
    forall t | 0 <= t < |pool| ensures ThreadOk(pool, slots, rows, t) && Member(pool, 1, t) {
      NoKids(pool, t);
    }
    forall p, j | 0 <= p < |rows| && 0 <= j < |rows[p]| ensures SlotOk(pool, slots, rows, p, j) {
    }
  }
}
