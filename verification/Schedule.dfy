/** The schedule as a value: for every priority the row of threads in its live slots.

    A thread knows its slot.  The root, thread 0, sits in the first slot of row 0 and is the
    one thread whose own note of its slot may be wrong: removals overwrite it. */
module Schedule {
  import opened Tally
  import opened Tcbs

  ghost predicate SlotOk(pool: seq<Tcb>, slots: seq<int>, rows: seq<seq<int>>, p: nat, j: nat)
    requires |slots| == |pool| && p < |rows| && j < |rows[p]|
  {
    var t := rows[p][j];
    && 0 <= t < |pool| && pool[t].valid && pool[t].prio == p
    && if t == 0 then p == 0 && j == 0 else slots[t] == j
  }

  ghost predicate ThreadOk(pool: seq<Tcb>, slots: seq<int>, rows: seq<seq<int>>, t: nat)
    requires |slots| == |pool| && t < |pool|
  {
    pool[t].valid ==>
      && pool[t].thid == t && pool[t].prio < |rows|
      && (t != 0 ==> 0 <= slots[t] < |rows[pool[t].prio]| && rows[pool[t].prio][slots[t]] == t)
  }

  /** Rows and threads agree, for all threads but `x`, which is in no row. */
  ghost predicate SchedBut(pool: seq<Tcb>, slots: seq<int>, rows: seq<seq<int>>, x: int) {
    && |slots| == |pool| && |pool| > 0 && pool[0].valid && pool[0].prio == 0
    && |rows| > 0 && |rows[0]| > 0 && rows[0][0] == 0
    && (forall p, j :: 0 <= p < |rows| && 0 <= j < |rows[p]| ==> SlotOk(pool, slots, rows, p, j) && rows[p][j] != x)
    && (forall t :: 0 <= t < |pool| && t != x ==> ThreadOk(pool, slots, rows, t))
  }

  ghost predicate Sched(pool: seq<Tcb>, slots: seq<int>, rows: seq<seq<int>>) {
    SchedBut(pool, slots, rows, NIL)
  }

  function Left(rows: seq<seq<int>>, p: nat, j: nat): (r: seq<seq<int>>)
    requires p < |rows| && j < |rows[p]|
    ensures |r| == |rows|
  {
    rows[p := RemoveAt(rows[p], j)]
  }

  /** The row without thread `t`. */
  function Drop(row: seq<int>, t: int): seq<int> {
    if row == [] then [] else if row[0] == t then row[1..] else [row[0]] + Drop(row[1..], t)
  }

  lemma {:induction false} DropIs(row: seq<int>, t: int, j: nat)
    requires j < |row| && row[j] == t && forall k :: 0 <= k < j ==> row[k] != t
    ensures Drop(row, t) == RemoveAt(row, j)
  {
    if j > 0 {
      DropIs(row[1..], t, j - 1);
    }
  }

  function Entered(rows: seq<seq<int>>, p: nat, t: int): (r: seq<seq<int>>)
    requires p < |rows|
    ensures |r| == |rows|
  {
    rows[p := rows[p] + [t]]
  }

  /** The schedule in memory: rows of `width` slots, the live ones first, and 0 in all others. */
  ghost predicate TableOk(table: seq<seq<int>>, rows: seq<seq<int>>, width: nat) {
    && |table| == |rows|
    && (forall p :: 0 <= p < |rows| ==> |table[p]| == width && |rows[p]| <= width)
    && forall p, j :: 0 <= p < |rows| && 0 <= j < width ==> table[p][j] == if j < |rows[p]| then rows[p][j] else 0
  }

  /** A shift in row `p` would take in the first thread of the next row: the row is full, so
      the slot behind its last is the first of the next one. */
  predicate Spilling(rows: seq<seq<int>>, width: nat, p: nat)
    requires p < |rows|
  {
    |rows[p]| == width && p + 1 < |rows| && rows[p + 1] != []
  }

  /** The slot behind the last of the last row is outside of the schedule. */
  predicate Inside(rows: seq<seq<int>>, width: nat, p: nat)
    requires p < |rows|
  {
    |rows[p]| < width || p + 1 < |rows|
  }

  /** The slot behind slot `k` of row `p` in memory. */
  function Behind(table: seq<seq<int>>, width: nat, p: nat, k: nat): int
    requires p < |table| && |table[p]| == width && k < width
    requires k + 1 == width && p + 1 < |table| ==> |table[p + 1]| == width
  {
    if k + 1 < width then table[p][k + 1] else if p + 1 < |table| then table[p + 1][0] else 0
  }

  ghost predicate Dims(table: seq<seq<int>>, rows: nat, width: nat) {
    |table| == rows && forall q :: 0 <= q < rows ==> |table[q]| == width
  }

  /** Slots `j` to `n` of row `p` have been filled, each from the slot behind it in memory. */
  ghost predicate Refilled(table: seq<seq<int>>, after: seq<seq<int>>, width: nat, p: nat, j: nat, n: nat) {
    && Dims(table, |table|, width) && Dims(after, |table|, width)
    && forall q, k :: 0 <= q < |table| && 0 <= k < width ==>
         after[q][k] == if q == p && j <= k < n then Behind(table, width, q, k) else table[q][k]
  }

  /** Every valid thread is in one live slot, of the row of its priority, and in no other; a
      thread that is not valid is in none. */
  lemma ExactlyOneSlot(pool: seq<Tcb>, slots: seq<int>, rows: seq<seq<int>>, t: nat)
    requires Sched(pool, slots, rows) && t < |pool|
    ensures pool[t].valid ==>
      var p, j := pool[t].prio, if t == 0 then 0 else slots[t];
      p < |rows| && 0 <= j < |rows[p]| && rows[p][j] == t
    ensures forall p, j :: 0 <= p < |rows| && 0 <= j < |rows[p]| && rows[p][j] == t ==>
              pool[t].valid && p == pool[t].prio && j == if t == 0 then 0 else slots[t]
  {
    assert ThreadOk(pool, slots, rows, t);
    forall p, j | 0 <= p < |rows| && 0 <= j < |rows[p]| && rows[p][j] == t
      ensures pool[t].valid && p == pool[t].prio && j == if t == 0 then 0 else slots[t]
    {
      assert SlotOk(pool, slots, rows, p, j);
    }
  }

  /** The notes of the threads of row `p` behind slot `j`, once the slots up to `i` have been
      filled from the slot behind each. */
  ghost predicate Reslotted(pool: seq<Tcb>, slots: seq<int>, after: seq<int>, p: nat, j: nat, i: nat)
    requires |slots| == |pool|
  {
    && |after| == |slots|
    && forall u :: 1 <= u < |slots| ==>
         after[u] == if pool[u].valid && pool[u].prio == p && j < slots[u] <= i then slots[u] - 1 else slots[u]
  }

  lemma ReslotStep(pool: seq<Tcb>, slots: seq<int>, rows: seq<seq<int>>, after: seq<int>, p: nat, j: nat, i: nat)
    requires Sched(pool, slots, rows) && p < |rows| && j <= i && i + 1 < |rows[p]|
    requires Reslotted(pool, slots, after, p, j, i)
    ensures 0 < rows[p][i + 1] < |after|
    ensures Reslotted(pool, slots, after[rows[p][i + 1] := i], p, j, i + 1)
  {
    assert SlotOk(pool, slots, rows, p, i + 1);
    var x := rows[p][i + 1];
    forall u | 1 <= u < |slots| && u != x
      ensures !(pool[u].valid && pool[u].prio == p && slots[u] == i + 1)
    {
      assert ThreadOk(pool, slots, rows, u);
    }
  }

  /** The last step of the shift writes the root's note only. */
  lemma ReslotLast(pool: seq<Tcb>, slots: seq<int>, rows: seq<seq<int>>, after: seq<int>, p: nat, j: nat, i: nat)
    requires Sched(pool, slots, rows) && p < |rows| && i + 1 == |rows[p]|
    requires Reslotted(pool, slots, after, p, j, i)
    ensures Reslotted(pool, slots, after[0 := i], p, j, i + 1)
  {
    forall u | 1 <= u < |slots|
      ensures !(pool[u].valid && pool[u].prio == p && slots[u] == i + 1)
    {
      assert ThreadOk(pool, slots, rows, u);
    }
  }

  /** The notes when the row spills: the thread taken in from the next row notes the last slot
      of this one, and the others are as after any shift. */
  ghost predicate SpiltNotes(pool: seq<Tcb>, slots: seq<int>, after: seq<int>, p: nat, j: nat, n: nat, x: int)
    requires |slots| == |pool|
  {
    && |after| == |slots| && 0 < x < |slots| && after[x] == n - 1
    && Reslotted(pool, slots, after[x := slots[x]], p, j, n)
  }

  /** The notes once the slots up to `i` have been filled. */
  ghost predicate Renoted(
      pool: seq<Tcb>, slots: seq<int>, after: seq<int>, rows: seq<seq<int>>, width: nat, p: nat, j: nat, i: nat)
    requires |slots| == |pool| && p < |rows|
  {
    if i == |rows[p]| && Spilling(rows, width, p) then SpiltNotes(pool, slots, after, p, j, i, rows[p + 1][0])
    else Reslotted(pool, slots, after, p, j, i)
  }

  /** What the slot behind live slot `k` of row `p` holds. */
  function Follower(rows: seq<seq<int>>, width: nat, p: nat, k: nat): int
    requires p < |rows|
  {
    if k + 1 < |rows[p]| then rows[p][k + 1] else if Spilling(rows, width, p) then rows[p + 1][0] else 0
  }

  lemma BehindIs(table: seq<seq<int>>, rows: seq<seq<int>>, width: nat, p: nat, k: nat)
    requires TableOk(table, rows, width) && p < |rows| && k < |rows[p]|
    ensures Behind(table, width, p, k) == Follower(rows, width, p, k)
  {
    if k + 1 == width && p + 1 < |rows| {
      assert table[p + 1][0] == if rows[p + 1] != [] then rows[p + 1][0] else 0;
    }
  }

  lemma SpillNote(pool: seq<Tcb>, slots: seq<int>, rows: seq<seq<int>>, after: seq<int>, p: nat, j: nat, i: nat)
    requires Sched(pool, slots, rows) && p + 1 < |rows| && i + 1 == |rows[p]| && rows[p + 1] != []
    requires Reslotted(pool, slots, after, p, j, i)
    ensures 0 < rows[p + 1][0] < |after|
    ensures SpiltNotes(pool, slots, after[rows[p + 1][0] := i], p, j, i + 1, rows[p + 1][0])
  {
    assert SlotOk(pool, slots, rows, p + 1, 0);
    forall u | 1 <= u < |slots|
      ensures !(pool[u].valid && pool[u].prio == p && slots[u] == i + 1)
    {
      assert ThreadOk(pool, slots, rows, u);
    }
  }

  lemma RenoteStep(
      pool: seq<Tcb>, slots: seq<int>, rows: seq<seq<int>>, after: seq<int>, width: nat, p: nat, j: nat, i: nat)
    requires Sched(pool, slots, rows) && p < |rows| && j <= i < |rows[p]|
    requires Renoted(pool, slots, after, rows, width, p, j, i)
    ensures 0 <= Follower(rows, width, p, i) < |after|
    ensures Renoted(pool, slots, after[Follower(rows, width, p, i) := i], rows, width, p, j, i + 1)
  {
    if i + 1 < |rows[p]| {
      ReslotStep(pool, slots, rows, after, p, j, i);
    } else if Spilling(rows, width, p) {
      SpillNote(pool, slots, rows, after, p, j, i);
    } else {
      ReslotLast(pool, slots, rows, after, p, j, i);
    }
  }

  /** Thread `x` has left its row. */
  lemma LeaveKeepsSched(pool: seq<Tcb>, slots: seq<int>, rows: seq<seq<int>>, after: seq<int>, x: nat)
    requires Sched(pool, slots, rows) && 0 < x < |pool| && pool[x].valid
    requires ThreadOk(pool, slots, rows, x)
    requires Reslotted(pool, slots, after, pool[x].prio, slots[x], |rows[pool[x].prio]|)
    ensures SchedBut(pool, after, Left(rows, pool[x].prio, slots[x]), x)
  {
    var p, j := pool[x].prio, slots[x];
    var r := Left(rows, p, j);
    forall q, k | 0 <= q < |r| && 0 <= k < |r[q]| ensures SlotOk(pool, after, r, q, k) && r[q][k] != x {
      assert SlotOk(pool, slots, rows, q, if q == p && k >= j then k + 1 else k);
    }
    forall t | 0 <= t < |pool| && t != x ensures ThreadOk(pool, after, r, t) {
      assert ThreadOk(pool, slots, rows, t);
    }
    assert SlotOk(pool, slots, rows, p, j);
    assert SlotOk(pool, slots, rows, 0, 0);
  }

  /** Thread `x` is let into the row of its priority. */
  lemma EnterKeepsSched(pool: seq<Tcb>, slots: seq<int>, rows: seq<seq<int>>, x: nat)
    requires SchedBut(pool, slots, rows, x) && 0 < x < |pool|
    requires pool[x].valid ==> pool[x].thid == x && pool[x].prio < |rows| && slots[x] == |rows[pool[x].prio]|
    ensures pool[x].valid ==> Sched(pool, slots, Entered(rows, pool[x].prio, x))
    ensures !pool[x].valid ==> Sched(pool, slots, rows)
  {
    if pool[x].valid {
      var p := pool[x].prio;
      var r := Entered(rows, p, x);
      forall q, k | 0 <= q < |r| && 0 <= k < |r[q]| ensures SlotOk(pool, slots, r, q, k) {
        if !(q == p && k == |rows[p]|) {
          assert SlotOk(pool, slots, rows, q, k);
        }
      }
      forall t | 0 <= t < |pool| ensures ThreadOk(pool, slots, r, t) {
        assert t != x ==> ThreadOk(pool, slots, rows, t);
      }
    } else {
      assert ThreadOk(pool, slots, rows, x);
    }
  }

  /** The schedule does not depend on the other fields of the threads. */
  lemma AgreeKeepsSched(a: seq<Tcb>, b: seq<Tcb>, slots: seq<int>, rows: seq<seq<int>>)
    requires Sched(a, slots, rows) && Agree(a, b)
    ensures Sched(b, slots, rows)
    ensures Valids(a) == Valids(b)
  {
    OutsideKeepsSched(a, b, slots, slots, rows, NIL);
    ValidsSame(a, b);
  }

  /** Nor does it depend on the thread that is left out. */
  lemma OutsideKeepsSched(a: seq<Tcb>, b: seq<Tcb>, slots: seq<int>, after: seq<int>, rows: seq<seq<int>>, x: int)
    requires SchedBut(a, slots, rows, x) && x != 0 && |after| == |slots| && |b| == |a|
    requires forall i :: 0 <= i < |a| && i != x ==>
      b[i].valid == a[i].valid && b[i].thid == a[i].thid && b[i].prio == a[i].prio
    requires forall u :: 1 <= u < |slots| && u != x ==> after[u] == slots[u]
    ensures SchedBut(b, after, rows, x)
  {
    forall q, k | 0 <= q < |rows| && 0 <= k < |rows[q]| ensures SlotOk(b, after, rows, q, k) && rows[q][k] != x {
      assert SlotOk(a, slots, rows, q, k);
    }
    forall t | 0 <= t < |b| && t != x ensures ThreadOk(b, after, rows, t) {
      assert ThreadOk(a, slots, rows, t);
    }
  }

  /** A thread that is not valid is in no row. */
  lemma AbsentUnlessValid(pool: seq<Tcb>, slots: seq<int>, rows: seq<seq<int>>, x: nat)
    requires Sched(pool, slots, rows) && x < |pool| && !pool[x].valid
    ensures SchedBut(pool, slots, rows, x)
  {
    forall q, k | 0 <= q < |rows| && 0 <= k < |rows[q]| ensures rows[q][k] != x {
      assert SlotOk(pool, slots, rows, q, k);
    }
  }

  function ValidMarks(pool: seq<Tcb>): (r: seq<int>)
    ensures |r| == |pool| && forall i :: 0 <= i < |r| ==> r[i] == if pool[i].valid then 1 else 0
  {
    seq(|pool|, i requires 0 <= i < |pool| => if pool[i].valid then 1 else 0)
  }

  function Lengths(rows: seq<seq<int>>): (r: seq<int>)
    ensures |r| == |rows| && forall p :: 0 <= p < |r| ==> r[p] == |rows[p]|
  {
    seq(|rows|, p requires 0 <= p < |rows| => |rows[p]|)
  }

  /** The number of valid threads, and the number of live slots. */
  function Valids(pool: seq<Tcb>): int {
    Sum(ValidMarks(pool))
  }

  function Lives(rows: seq<seq<int>>): int {
    Sum(Lengths(rows))
  }

  lemma ValidsUpdate(pool: seq<Tcb>, i: nat, x: Tcb)
    requires i < |pool|
    ensures Valids(pool[i := x]) ==
      Valids(pool) - (if pool[i].valid then 1 else 0) + if x.valid then 1 else 0
  {
    var mark := if x.valid then 1 else 0;
    SumUpdate(ValidMarks(pool), i, mark);
    assert ValidMarks(pool[i := x]) == ValidMarks(pool)[i := mark];
  }

  lemma ValidsSame(a: seq<Tcb>, b: seq<Tcb>)
    requires |a| == |b| && forall i :: 0 <= i < |a| ==> a[i].valid == b[i].valid
    ensures Valids(a) == Valids(b)
  {
    assert ValidMarks(a) == ValidMarks(b);
  }

  lemma ValidsBound(pool: seq<Tcb>)
    ensures Valids(pool) <= |pool|
  {
    SumBits(ValidMarks(pool));
  }

  /** While not all control blocks are in use one of them is free. */
  lemma SomeFree(pool: seq<Tcb>) returns (t: nat)
    requires Valids(pool) < |pool|
    ensures t < |pool| && !pool[t].valid
  {
    var m := ValidMarks(pool);
    SumBits(m);
    t :| t < |m| && m[t] != 1;
  }

  lemma LivesUpdate(rows: seq<seq<int>>, p: nat, row: seq<int>)
    requires p < |rows|
    ensures Lives(rows[p := row]) == Lives(rows) - |rows[p]| + |row|
  {
    SumUpdate(Lengths(rows), p, |row|);
    assert Lengths(rows[p := row]) == Lengths(rows)[p := |row|];
  }

  lemma BurialKeepsSched(pool: seq<Tcb>, slots: seq<int>, rows: seq<seq<int>>, after: seq<int>, t: nat)
    requires Sched(pool, slots, rows) && 0 < t < |pool| && pool[t].valid && ThreadOk(pool, slots, rows, t)
    requires Reslotted(pool, slots, after, pool[t].prio, slots[t], |rows[pool[t].prio]|)
    ensures Sched(pool[t := pool[t].(valid := false)], after, Left(rows, pool[t].prio, slots[t]))
  {
    var r := Left(rows, pool[t].prio, slots[t]);
    LeaveKeepsSched(pool, slots, rows, after, t);
    var q := pool[t := pool[t].(valid := false)];
    OutsideKeepsSched(pool, q, after, after, r, t);
    EnterKeepsSched(q, after, r, t);
  }

  lemma BurialCounts(pool: seq<Tcb>, rows: seq<seq<int>>, t: nat, p: nat, j: nat)
    requires t < |pool| && pool[t].valid && p < |rows| && j < |rows[p]|
    ensures Valids(pool[t := pool[t].(valid := false)]) == Valids(pool) - 1
    ensures Lives(Left(rows, p, j)) == Lives(rows) - 1
  {
    ValidsUpdate(pool, t, pool[t].(valid := false));
    LivesUpdate(rows, p, RemoveAt(rows[p], j));
  }

  /** A thread moves from its row to the end of row `p`. */
  lemma MoveKeepsSched(pool: seq<Tcb>, slots: seq<int>, rows: seq<seq<int>>, after: seq<int>, x: nat, p: nat)
    requires Sched(pool, slots, rows) && 0 < x < |pool| && pool[x].valid && ThreadOk(pool, slots, rows, x)
    requires p < |rows| && p != pool[x].prio
    requires Reslotted(pool, slots, after, pool[x].prio, slots[x], |rows[pool[x].prio]|)
    ensures Sched(pool[x := pool[x].(prio := p)], after[x := |rows[p]|], Entered(Left(rows, pool[x].prio, slots[x]), p, x))
    ensures Valids(pool[x := pool[x].(prio := p)]) == Valids(pool)
    ensures Lives(Entered(Left(rows, pool[x].prio, slots[x]), p, x)) == Lives(rows)
  {
    var r := Left(rows, pool[x].prio, slots[x]);
    LeaveKeepsSched(pool, slots, rows, after, x);
    var q := pool[x := pool[x].(prio := p)];
    OutsideKeepsSched(pool, q, after, after[x := |rows[p]|], r, x);
    EnterKeepsSched(q, after[x := |rows[p]|], r, x);
    ValidsSame(pool, q);
    LivesUpdate(rows, pool[x].prio, RemoveAt(rows[pool[x].prio], slots[x]));
    LivesUpdate(r, p, r[p] + [x]);
  }

  /** A new thread `x` enters the row of its priority; `b` is the pool with its control block
      filled in. */
  lemma BirthKeepsSched(pool: seq<Tcb>, b: seq<Tcb>, slots: seq<int>, rows: seq<seq<int>>, x: nat)
    requires Sched(pool, slots, rows) && 0 < x < |pool| == |b| && !pool[x].valid
    requires b[x].valid && b[x].thid == x && b[x].prio < |rows|
    requires forall i :: 0 <= i < |b| && i != x ==>
      b[i].valid == pool[i].valid && b[i].thid == pool[i].thid && b[i].prio == pool[i].prio
    ensures Sched(b, slots[x := |rows[b[x].prio]|], Entered(rows, b[x].prio, x))
    ensures Valids(b) == Valids(pool) + 1
    ensures Lives(Entered(rows, b[x].prio, x)) == Lives(rows) + 1
  {
    var after := slots[x := |rows[b[x].prio]|];
    AbsentUnlessValid(pool, slots, rows, x);
    OutsideKeepsSched(pool, b, slots, after, rows, x);
    EnterKeepsSched(b, after, rows, x);
    ValidsUpdate(pool, x, b[x]);
    ValidsSame(pool[x := b[x]], b);
    LivesUpdate(rows, b[x].prio, rows[b[x].prio] + [x]);
  }

  /** `k` places on from `i` in a circle of `n`. */
  function Around(i: int, k: nat, n: nat): int {
    if i + k < n then i + k else i + k - n
  }

  /** The first free control block behind `from`, in circular order. */
  ghost predicate NextFree(pool: seq<Tcb>, from: nat, t: nat) {
    exists k: nat :: FreeAfter(pool, from, k) && t == Around(from, k, |pool|)
  }

  ghost predicate FreeAfter(pool: seq<Tcb>, from: nat, k: nat) {
    && 1 <= k <= |pool| && from < |pool| && !pool[Around(from, k, |pool|)].valid
    && forall l :: 1 <= l < k ==> pool[Around(from, l, |pool|)].valid
  }

  predicate Ready(pool: seq<Tcb>, t: int) {
    0 <= t < |pool| && pool[t].state == READY
  }

  ghost predicate NoneReady(pool: seq<Tcb>, row: seq<int>) {
    forall j :: 0 <= j < |row| ==> !Ready(pool, row[j])
  }

  /** In row `p` the thread `k` places on from the cursor is the first ready one, and no row
      above has a ready one. */
  ghost predicate Picks(pool: seq<Tcb>, rows: seq<seq<int>>, curr: seq<int>, p: nat, k: nat) {
    && p < |rows| == |curr| && k < |rows[p]| && 0 <= curr[p] < |rows[p]|
    && Ready(pool, rows[p][Around(curr[p], k, |rows[p]|)])
    && (forall l :: 0 <= l < k ==> !Ready(pool, rows[p][Around(curr[p], l, |rows[p]|)]))
    && (forall q :: 0 <= q < p ==> NoneReady(pool, rows[q]))
  }

  ghost predicate Dispatched(pool: seq<Tcb>, rows: seq<seq<int>>, curr: seq<int>, t: int) {
    exists p: nat, k: nat :: Picks(pool, rows, curr, p, k) && t == rows[p][Around(curr[p], k, |rows[p]|)]
  }

  /** The dispatcher has no choice. */
  lemma DispatchUnique(pool: seq<Tcb>, rows: seq<seq<int>>, curr: seq<int>, s: int, t: int)
    requires Dispatched(pool, rows, curr, s) && Dispatched(pool, rows, curr, t)
    ensures s == t
  {
    var p: nat, k: nat :| Picks(pool, rows, curr, p, k) && s == rows[p][Around(curr[p], k, |rows[p]|)];
    var q: nat, l: nat :| Picks(pool, rows, curr, q, l) && t == rows[q][Around(curr[q], l, |rows[q]|)];
    assert p == q && k == l;
  }

  /** No ready thread has a numerically lower priority than the one dispatched. */
  lemma DispatchHighest(pool: seq<Tcb>, slots: seq<int>, rows: seq<seq<int>>, curr: seq<int>, t: nat, u: nat)
    requires Sched(pool, slots, rows) && Dispatched(pool, rows, curr, t)
    requires u < |pool| && pool[u].valid && pool[u].state == READY
    ensures t < |pool| && pool[t].valid && pool[t].state == READY && pool[t].prio <= pool[u].prio
  {
    var p: nat, k: nat :| Picks(pool, rows, curr, p, k) && t == rows[p][Around(curr[p], k, |rows[p]|)];
    assert SlotOk(pool, slots, rows, p, Around(curr[p], k, |rows[p]|));
    ExactlyOneSlot(pool, slots, rows, u);
    var q, j := pool[u].prio, if u == 0 then 0 else slots[u];
    assert rows[q][j] == u;
  }

  /** A whole turn from the cursor passes every slot. */
  lemma WholeTurn(pool: seq<Tcb>, row: seq<int>, curr: nat)
    requires curr < |row|
    requires forall l :: 0 <= l < |row| ==> !Ready(pool, row[Around(curr, l, |row|)])
    ensures NoneReady(pool, row)
  {
    forall j | 0 <= j < |row| ensures !Ready(pool, row[j]) {
      var l := if j >= curr then j - curr else j + |row| - curr;
      assert Around(curr, l, |row|) == j;
    }
  }

  /** No zombie sits in a full row. */
  ghost predicate Roomy(pool: seq<Tcb>, rows: seq<seq<int>>, width: nat) {
    forall t :: 0 <= t < |pool| && pool[t].valid && pool[t].state.zombi ==>
      pool[t].prio < |rows| && |rows[pool[t].prio]| < width
  }

  /** It stays so while no new zombie appears and rows only become shorter. */
  lemma RoomyKept(a: seq<Tcb>, b: seq<Tcb>, rows: seq<seq<int>>, after: seq<seq<int>>, width: nat)
    requires Roomy(a, rows, width) && |a| == |b| && |rows| == |after|
    requires forall i :: 0 <= i < |b| && b[i].valid && b[i].state.zombi ==>
      a[i].valid && a[i].state.zombi && a[i].prio == b[i].prio
    requires forall p :: 0 <= p < |rows| ==> |after[p]| <= |rows[p]|
    ensures Roomy(b, after, width)
  {
  }
}
