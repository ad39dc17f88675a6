/** Whole runs of creation, burial and change of priority; the root stays where it is. */
module ScheduleRuns {
  import opened Tcbs
  import opened Schedule

  /** The schedule: `table` is it in memory, `rows` its live slots. */
  datatype World = World(
    pool: seq<Tcb>, slots: seq<int>, rows: seq<seq<int>>, table: seq<seq<int>>, width: nat, inUse: int)

  /** `Elsewhere` is anything that happens to the other fields of the threads. */
  datatype Op = Birth(t: nat) | Burial(t: nat) | Move(t: nat, p: nat) | Elsewhere

  /** Thread `t` is where it notes that it is. */
  predicate Seated(w: World, t: nat) {
    && 0 < t < |w.pool| == |w.slots| && w.pool[t].valid
    && w.pool[t].prio < |w.rows| && 0 <= w.slots[t] < |w.rows[w.pool[t].prio]|
    && Inside(w.rows, w.width, w.pool[t].prio)
  }

  /** What a step would take in from the next row. */
  ghost predicate Spills(w: World, op: Op) {
    (op.Burial? || op.Move?) && Seated(w, op.t) && Spilling(w.rows, w.width, w.pool[op.t].prio)
  }

  /** Thread `t` has left its row, and unless the row spilled those behind it note their new
      slots. */
  ghost predicate Leaves(w: World, t: nat, slots: seq<int>, table: seq<seq<int>>) {
    && Seated(w, t)
    && var p, j := w.pool[t].prio, w.slots[t];
       && Refilled(w.table, table, w.width, p, j, |w.rows[p]|)
       && (!Spilling(w.rows, w.width, p) ==> Reslotted(w.pool, w.slots, slots, p, j, |w.rows[p]|))
  }

  function Put(table: seq<seq<int>>, p: nat, j: nat, t: int): seq<seq<int>>
    requires p < |table| && j < |table[p]|
  {
    table[p := table[p][j := t]]
  }

  /** The other threads are as they were. */
  ghost predicate Apart(w: World, w': World, t: nat) {
    && |w'.pool| == |w.pool|
    && forall i :: 0 <= i < |w.pool| && i != t ==>
         w'.pool[i].valid == w.pool[i].valid && w'.pool[i].thid == w.pool[i].thid && w'.pool[i].prio == w.pool[i].prio
  }

  ghost predicate Born(w: World, t: nat, w': World) {
    && 0 < t < |w.pool| == |w.slots| && Apart(w, w', t)
    && !w.pool[t].valid && w'.pool[t].valid && w'.pool[t].thid == t
    && var p := w'.pool[t].prio;
       && p < |w.rows| == |w.table| && |w.rows[p]| < w.width == |w.table[p]|
       && w' == World(w'.pool, w.slots[t := |w.rows[p]|], Entered(w.rows, p, t),
                      Put(w.table, p, |w.rows[p]|, t), w.width, w.inUse + 1)
  }

  ghost predicate Buried(w: World, t: nat, w': World) {
    && Leaves(w, t, w'.slots, w'.table)
    && w' == World(w.pool[t := w.pool[t].(valid := false)], w'.slots,
                   Left(w.rows, w.pool[t].prio, w.slots[t]), w'.table, w.width, w.inUse - 1)
  }

  ghost predicate Moved(w: World, t: nat, p: nat, w': World, slots: seq<int>, table: seq<seq<int>>) {
    && Leaves(w, t, slots, table) && t < |slots|
    && p < |w.rows| == |table| && p != w.pool[t].prio && |w.rows[p]| < w.width == |table[p]|
    && w' == World(w.pool[t := w.pool[t].(prio := p)], slots[t := |w.rows[p]|],
                   Entered(Left(w.rows, w.pool[t].prio, w.slots[t]), p, t),
                   Put(table, p, |w.rows[p]|, t), w.width, w.inUse)
  }

  ghost predicate Next(w: World, op: Op, w': World) {
    match op
    case Birth(t) => Born(w, t, w')
    case Burial(t) => Buried(w, t, w')
    case Move(t, p) => exists slots, table :: Moved(w, t, p, w', slots, table)
    case Elsewhere => Agree(w.pool, w'.pool) && w' == w.(pool := w'.pool)
  }

  ghost predicate Inv(w: World) {
    && Sched(w.pool, w.slots, w.rows) && TableOk(w.table, w.rows, w.width)
    && w.inUse == Valids(w.pool) == Lives(w.rows)
  }

  lemma BirthKeepsInv(w: World, op: Op, w': World)
    requires Inv(w) && op.Birth? && Next(w, op, w')
    ensures Inv(w')
  {
    BirthKeepsSched(w.pool, w'.pool, w.slots, w.rows, op.t);
    PutTable(w.table, w.rows, w.width, w'.pool[op.t].prio, op.t);
  }

  /** Without a spill the table is in order after the shift. */
  lemma ShiftedTable(w: World, t: nat, slots: seq<int>, table: seq<seq<int>>)
    requires Inv(w) && Leaves(w, t, slots, table) && !Spilling(w.rows, w.width, w.pool[t].prio)
    ensures TableOk(table, Left(w.rows, w.pool[t].prio, w.slots[t]), w.width)
  {
    var p, j := w.pool[t].prio, w.slots[t];
    var rows := Left(w.rows, p, j);
    forall q, k | 0 <= q < |rows| && 0 <= k < w.width
      ensures table[q][k] == if k < |rows[q]| then rows[q][k] else 0
    {
      assert w.table[q][k] == if k < |w.rows[q]| then w.rows[q][k] else 0;
      assert q == p && k + 1 < w.width ==> w.table[p][k + 1] == if k + 1 < |w.rows[p]| then w.rows[p][k + 1] else 0;
      assert q == p && p + 1 < |rows| ==> w.table[p + 1][0] == if w.rows[p + 1] != [] then w.rows[p + 1][0] else 0;
    }
  }

  /** With a spill the slot behind the row is not 0 any more. */
  lemma SpiltTable(w: World, t: nat, slots: seq<int>, table: seq<seq<int>>)
    requires Inv(w) && Leaves(w, t, slots, table) && Spilling(w.rows, w.width, w.pool[t].prio)
    ensures var p := w.pool[t].prio; |table| == |w.table| && |table[p]| == w.width && table[p][|w.rows[p]| - 1] != 0
  {
    var p := w.pool[t].prio;
    assert SlotOk(w.pool, w.slots, w.rows, p + 1, 0);
    assert table[p][w.width - 1] == Behind(w.table, w.width, p, w.width - 1);
    assert w.table[p + 1][0] == w.rows[p + 1][0];
  }

  lemma DeadSlot(table: seq<seq<int>>, rows: seq<seq<int>>, width: nat, p: nat)
    requires p < |rows| == |table| && |rows[p]| < width == |table[p]| && table[p][|rows[p]|] != 0
    ensures !TableOk(table, rows, width)
  {
  }

  lemma PutTable(table: seq<seq<int>>, rows: seq<seq<int>>, width: nat, p: nat, t: int)
    requires TableOk(table, rows, width) && p < |rows| && |rows[p]| < width
    ensures TableOk(Put(table, p, |rows[p]|, t), Entered(rows, p, t), width)
  {
  }

  /** A burial keeps the schedule in order exactly if nothing spills. */
  lemma BurialKeepsInvIff(w: World, op: Op, w': World)
    requires Inv(w) && op.Burial? && Next(w, op, w')
    ensures Inv(w') <==> !Spills(w, op)
  {
    assert ThreadOk(w.pool, w.slots, w.rows, op.t);
    if Spills(w, op) {
      SpiltTable(w, op.t, w'.slots, w'.table);
      DeadSlot(w'.table, w'.rows, w.width, w.pool[op.t].prio);
    } else {
      ShiftedTable(w, op.t, w'.slots, w'.table);
      BurialKeepsSched(w.pool, w.slots, w.rows, w'.slots, op.t);
      BurialCounts(w.pool, w.rows, op.t, w.pool[op.t].prio, w.slots[op.t]);
    }
  }

  /** So does a change of priority. */
  lemma MoveKeepsInvIff(w: World, op: Op, w': World)
    requires Inv(w) && op.Move? && Next(w, op, w')
    ensures Inv(w') <==> !Spills(w, op)
  {
    assert ThreadOk(w.pool, w.slots, w.rows, op.t);
    var slots, table :| Moved(w, op.t, op.p, w', slots, table);
    var left := Left(w.rows, w.pool[op.t].prio, w.slots[op.t]);
    if Spills(w, op) {
      SpiltTable(w, op.t, slots, table);
      DeadSlot(w'.table, w'.rows, w.width, w.pool[op.t].prio);
    } else {
      ShiftedTable(w, op.t, slots, table);
      PutTable(table, left, w.width, op.p, op.t);
      MoveKeepsSched(w.pool, w.slots, w.rows, slots, op.t, op.p);
    }
  }

  lemma StepKeepsInvIff(w: World, op: Op, w': World)
    requires Inv(w) && Next(w, op, w')
    ensures Inv(w') <==> !Spills(w, op)
  {
    match op
    case Birth(_) => BirthKeepsInv(w, op, w');
    case Burial(_) => BurialKeepsInvIff(w, op, w');
    case Move(_, _) => MoveKeepsInvIff(w, op, w');
    case Elsewhere => AgreeKeepsSched(w.pool, w'.pool, w.slots, w.rows);
  }

  lemma {:induction false} RunKeepsInv(ws: seq<World>, ops: seq<Op>, n: nat)
    requires |ws| == |ops| + 1 && Inv(ws[0]) && n < |ws|
    requires forall i :: 0 <= i < |ops| ==> Next(ws[i], ops[i], ws[i + 1]) && !Spills(ws[i], ops[i])
    ensures Inv(ws[n])
  {
    if n > 0 {
      RunKeepsInv(ws, ops, n - 1);
      StepKeepsInvIff(ws[n - 1], ops[n - 1], ws[n]);
    }
  }

  /** In every state of every run in which nothing spills each thread is in one live slot of
      the row of its priority if it is valid and in none if it is not, all other slots hold 0,
      and rows and counter add up to the valid threads. */
  lemma AlwaysInOneSlot(ws: seq<World>, ops: seq<Op>, n: nat, t: nat)
    requires |ws| == |ops| + 1 && Inv(ws[0]) && n < |ws| && t < |ws[n].pool|
    requires forall i :: 0 <= i < |ops| ==> Next(ws[i], ops[i], ws[i + 1]) && !Spills(ws[i], ops[i])
    ensures Inv(ws[n])
    ensures ws[n].pool[t].valid <==>
      exists p, j :: 0 <= p < |ws[n].rows| && 0 <= j < |ws[n].rows[p]| && ws[n].rows[p][j] == t
    ensures forall p, j :: 0 <= p < |ws[n].rows| && 0 <= j < |ws[n].rows[p]| && ws[n].rows[p][j] == t ==>
      p == ws[n].pool[t].prio && (t != 0 ==> j == ws[n].slots[t])
  {
    RunKeepsInv(ws, ops, n);
    ExactlyOneSlot(ws[n].pool, ws[n].slots, ws[n].rows, t);
  }
}
