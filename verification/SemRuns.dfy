/** Whole runs of sm_p and sm_v on any number of semaphores, with untimed waits.

    A step is the code between two yields.  The running thread is READY; a thread that
    blocks, or that releases another one, then yields. */
module SemRuns {
  import opened Tcbs
  import opened Sems
  import opened Untimed

  /** What has happened to one semaphore so far. */
  datatype Log = Log(init: nat, vs: nat, admitted: nat, arrived: seq<int>, granted: seq<int>)

  datatype World = World(pool: seq<Tcb>, sems: seq<Sem>, logs: seq<Log>)

  datatype Op = P(t: int, q: nat, nowait: bool) | V(t: int, q: nat)

  ghost predicate Enabled(w: World, op: Op) {
    && 0 <= op.t < |w.pool| && op.q < |w.sems| == |w.logs|
    && w.pool[op.t].state == READY
  }

  /** sm_p with timeout 0. */
  function SmP(w: World, t: int, q: nat, nowait: bool): (r: (World, Code))
    requires 0 <= t < |w.pool| && q < |w.sems| == |w.logs|
  {
    var s := w.sems[q];
    if s.token <= 0 && nowait then (w, ERR_NOSEM)
    else
      var (s', pool', blocks, rc) := Lock(s, w.pool, t, false, 0);
      var g := w.logs[q];
      (World(pool', w.sems[q := s'], w.logs[q := LogP(g, t, blocks, rc)]), rc)
  }

  function LogP(g: Log, t: int, blocks: bool, rc: Code): Log {
    if rc != ERR_OK then g
    else g.(admitted := g.admitted + 1, arrived := if blocks then g.arrived + [t] else g.arrived)
  }

  function LogV(g: Log, s: Sem, pool: seq<Tcb>): Log
    requires SemOk(s) && AllIn(s.waiters, |pool|)
  {
    g.(vs := g.vs + 1, granted := if s.token < 0 then g.granted + [Pick(s, pool)] else g.granted)
  }

  function SmV(w: World, q: nat): World
    requires q < |w.sems| == |w.logs|
    requires SemOk(w.sems[q]) && AllIn(w.sems[q].waiters, |w.pool|)
  {
    var s := w.sems[q];
    var (s', pool') := Unlock(s, w.pool);
    World(pool', w.sems[q := s'], w.logs[q := LogV(w.logs[q], s, w.pool)])
  }

  ghost predicate Next(w: World, op: Op, w': World) {
    && Enabled(w, op)
    && match op
       case P(t, q, nowait) => w' == SmP(w, t, q, nowait).0
       case V(t, q) => SemOk(w.sems[q]) && AllIn(w.sems[q].waiters, |w.pool|) && w' == SmV(w, q)
  }

  ghost predicate InRing(w: World, t: int, q: nat)
    requires q < |w.sems|
  {
    t in w.sems[q].waiters
  }

  /** One semaphore, by itself: units are conserved, and the ring holds the threads that
      arrived and were not yet granted, in order when the semaphore is FIFO. */
  ghost predicate SemInv(s: Sem, g: Log, n: nat) {
    && SemOk(s) && AllIn(s.waiters, n) && Distinct(s.waiters)
    && s.token == g.init + g.vs - g.admitted
    && multiset(g.arrived) == multiset(g.granted) + multiset(s.waiters)
    && (!s.prior ==> g.arrived == g.granted + s.waiters)
  }

  /** The Q bit is set exactly while a thread sits in a ring, and it sits in one only. */
  ghost predicate Rings(w: World) {
    && (forall t, q :: 0 <= t < |w.pool| && 0 <= q < |w.sems| && InRing(w, t, q) ==> w.pool[t].state.queue)
    && (forall t :: 0 <= t < |w.pool| && w.pool[t].state.queue ==>
          exists q :: 0 <= q < |w.sems| && InRing(w, t, q))
    && (forall t, q, q' :: 0 <= q < |w.sems| && 0 <= q' < |w.sems| && InRing(w, t, q) && InRing(w, t, q') ==> q == q')
  }

  ghost predicate Inv(w: World) {
    && |w.logs| == |w.sems|
    && (forall q :: 0 <= q < |w.sems| ==> SemInv(w.sems[q], w.logs[q], |w.pool|))
    && Rings(w)
  }

  /** All semaphores freshly created, nobody queueing. */
  ghost predicate Init(w: World) {
    && |w.logs| == |w.sems|
    && (forall q :: 0 <= q < |w.sems| ==>
          var s, g := w.sems[q], w.logs[q];
          s.token == g.init && s.waiters == [] && s.cap > 0 && g.vs == g.admitted == 0 && g.arrived == g.granted == [])
    && (forall t :: 0 <= t < |w.pool| ==> !w.pool[t].state.queue)
  }

  /** `w'` is like `w`, but thread `t` has joined the ring of `q`. */
  lemma JoinRing(w: World, t: int, q: nat, w': World)
    requires Rings(w) && 0 <= t < |w.pool| == |w'.pool| && q < |w.sems| && !w.pool[t].state.queue
    requires |w'.sems| == |w.sems| && w'.sems == w.sems[q := w'.sems[q]] && w'.sems[q].waiters == w.sems[q].waiters + [t]
    requires w'.pool == w.pool[t := w'.pool[t]] && w'.pool[t].state.queue
    ensures Rings(w')
  {
    forall x, q' | 0 <= q' < |w.sems|
      ensures InRing(w', x, q') <==> InRing(w, x, q') || (x == t && q' == q)
    {
    }
    assert forall q' :: 0 <= q' < |w.sems| ==> !InRing(w, t, q');
    assert InRing(w', t, q);
    forall x | 0 <= x < |w.pool| && w'.pool[x].state.queue
      ensures exists q' :: 0 <= q' < |w'.sems| && InRing(w', x, q')
    {
      if x != t {
        var q' :| 0 <= q' < |w.sems| && InRing(w, x, q');
        assert InRing(w', x, q');
      }
    }
  }

  /** `w'` is like `w`, but the thread at position `j` has left the ring of `q`. */
  lemma LeaveRing(w: World, q: nat, j: nat, w': World)
    requires Rings(w) && q < |w.sems| && j < |w.sems[q].waiters|
    requires AllIn(w.sems[q].waiters, |w.pool|) && Distinct(w.sems[q].waiters)
    requires |w'.sems| == |w.sems| && w'.sems == w.sems[q := w'.sems[q]] && w'.sems[q].waiters == RemoveAt(w.sems[q].waiters, j)
    requires var t := w.sems[q].waiters[j];
      |w'.pool| == |w.pool| && w'.pool == w.pool[t := w'.pool[t]] && !w'.pool[t].state.queue
    ensures Rings(w')
  {
    var t := w.sems[q].waiters[j];
    assert InRing(w, t, q);
    RemoveAtDistinct(w.sems[q].waiters, j);
    forall x, q' | 0 <= q' < |w.sems|
      ensures InRing(w', x, q') <==> InRing(w, x, q') && x != t
    {
      if q' == q {} else { assert InRing(w', x, q') <==> InRing(w, x, q'); }
    }
  }

  lemma LockKeeps(s: Sem, g: Log, pool: seq<Tcb>, t: int)
    requires SemInv(s, g, |pool|) && 0 <= t < |pool| && t !in s.waiters
    ensures var (s', pool', blocks, rc) := Lock(s, pool, t, false, 0);
      SemInv(s', LogP(g, t, blocks, rc), |pool|)
  {
    AppendDistinct(s.waiters, t);
    assert g.granted + (s.waiters + [t]) == g.granted + s.waiters + [t];
  }

  /** Moving one waiter to the granted list keeps the books. */
  lemma Granting(granted: seq<int>, ws: seq<int>, j: nat)
    requires j < |ws|
    ensures multiset(granted + [ws[j]]) + multiset(RemoveAt(ws, j)) == multiset(granted) + multiset(ws)
  {
    RemoveAtMultiset(ws, j);
    assert multiset(granted + [ws[j]]) == multiset(granted) + multiset{ws[j]};
  }

  lemma GrantingFirst(granted: seq<int>, ws: seq<int>)
    requires |ws| > 0
    ensures granted + ws == granted + [ws[0]] + RemoveAt(ws, 0)
  {
  }

  lemma UnlockKeeps(s: Sem, g: Log, pool: seq<Tcb>)
    requires SemInv(s, g, |pool|)
    requires forall k :: 0 <= k < |s.waiters| ==> pool[s.waiters[k]].state.queue
    ensures SemInv(Unlock(s, pool).0, LogV(g, s, pool), |pool|)
  {
    if s.token < 0 {
      var j := UnlockReleasesOne(s, pool);
      Granting(g.granted, s.waiters, j);
      GrantingFirst(g.granted, s.waiters);
      RemoveAtDistinct(s.waiters, j);
      RemoveAtIn(s.waiters, j, |pool|);
    }
  }

  lemma PKeepsInv(w: World, t: int, q: nat, nowait: bool)
    requires Inv(w) && Enabled(w, P(t, q, nowait))
    ensures Inv(SmP(w, t, q, nowait).0)
  {
    var w' := SmP(w, t, q, nowait).0;
    assert !InRing(w, t, q);
    LockKeeps(w.sems[q], w.logs[q], w.pool, t);
    if w'.sems[q].waiters != w.sems[q].waiters {
      JoinRing(w, t, q, w');
    } else {
      assert forall x, q' :: 0 <= q' < |w.sems| ==> (InRing(w', x, q') <==> InRing(w, x, q'));
    }
  }

  lemma VKeepsInv(w: World, q: nat)
    requires Inv(w) && q < |w.sems|
    ensures Inv(SmV(w, q))
  {
    var w' := SmV(w, q);
    var s := w.sems[q];
    forall k | 0 <= k < |s.waiters| ensures w.pool[s.waiters[k]].state.queue {
      assert InRing(w, s.waiters[k], q);
    }
    UnlockKeeps(s, w.logs[q], w.pool);
    if s.token < 0 {
      var j := UnlockReleasesOne(s, w.pool);
      LeaveRing(w, q, j, w');
    } else {
      assert forall x, q' :: 0 <= q' < |w.sems| ==> (InRing(w', x, q') <==> InRing(w, x, q'));
    }
  }

  lemma StepKeepsInv(w: World, op: Op, w': World)
    requires Inv(w) && Next(w, op, w')
    ensures Inv(w')
  {
    match op
    case P(t, q, nowait) => PKeepsInv(w, t, q, nowait);
    case V(t, q) => VKeepsInv(w, q);
  }

  /** A run: each operation leads from one state to the next. */
  ghost predicate Run(ws: seq<World>, ops: seq<Op>) {
    |ws| == |ops| + 1 && forall i :: 0 <= i < |ops| ==> StepAt(ws, ops, i)
  }

  ghost predicate StepAt(ws: seq<World>, ops: seq<Op>, i: nat)
    requires i < |ops| < |ws|
  {
    Next(ws[i], ops[i], ws[i + 1])
  }

  lemma {:induction false} InvAt(ws: seq<World>, ops: seq<Op>, n: nat)
    requires Run(ws, ops) && Init(ws[0]) && n <= |ops|
    ensures Inv(ws[n])
  {
    if n > 0 {
      InvAt(ws, ops, n - 1);
      assert StepAt(ws, ops, n - 1);
      StepKeepsInv(ws[n - 1], ops[n - 1], ws[n]);
    }
  }

  /** Every state of every run from freshly created semaphores satisfies the invariant. */
  lemma AlwaysInv(ws: seq<World>, ops: seq<Op>)
    requires Run(ws, ops) && Init(ws[0])
    ensures forall i :: 0 <= i < |ws| ==> Inv(ws[i])
  {
    forall i | 0 <= i < |ws| ensures Inv(ws[i]) {
      InvAt(ws, ops, i);
    }
  }

  /** How many of the first `n` operations are V's on semaphore `q`. */
  function Vs(ops: seq<Op>, q: nat, n: nat): nat
    requires n <= |ops|
  {
    if n == 0 then 0 else Vs(ops, q, n - 1) + if ops[n - 1].V? && ops[n - 1].q == q then 1 else 0
  }

  /** Bounded waiting on a FIFO semaphore: whoever is at position `k` of the ring is
      released by the time `k + 1` V's have been performed, whatever else happens, and the
      release order is the arrival order. */
  lemma {:induction false} ServedInOrder(ws: seq<World>, ops: seq<Op>, q: nat, k: nat)
    requires Run(ws, ops) && Inv(ws[0])
    requires q < |ws[0].sems| && !ws[0].sems[q].prior && k < |ws[0].sems[q].waiters|
    ensures q < |ws[|ops|].logs|
    ensures var g, g' := ws[0].logs[q].granted, ws[|ops|].logs[q].granted;
      && (Vs(ops, q, |ops|) > k ==> |g'| > |g| + k)
      && (|g'| > |g| + k ==> g'[|g| + k] == ws[0].sems[q].waiters[k])
  {
    ServedSoFar(ws, ops, q, |ops|);
    GrantedPrefix(ws[0], ws[|ops|], q, k);
  }

  /** Since `w0` the FIFO semaphore `q` has served one arrival for each of `v` V's, or everybody
      who had arrived by then. */
  ghost predicate Served(w0: World, w: World, q: nat, v: nat) {
    && q < |w0.logs| && q < |w.sems| == |w.logs| && !w.sems[q].prior
    && w0.logs[q].arrived <= w.logs[q].arrived
    && (|w.logs[q].granted| >= |w0.logs[q].arrived| || |w.logs[q].granted| >= |w0.logs[q].granted| + v)
  }

  lemma ServedOn(w0: World, w: World, op: Op, w': World, q: nat, v: nat)
    requires Inv(w) && Next(w, op, w') && Served(w0, w, q, v)
    ensures Served(w0, w', q, v + if op.V? && op.q == q then 1 else 0)
  {
    ServedStep(w, op, w', q);
  }

  lemma {:induction false} ServedSoFar(ws: seq<World>, ops: seq<Op>, q: nat, n: nat)
    requires Run(ws, ops) && Inv(ws[0]) && n <= |ops|
    requires q < |ws[0].sems| && !ws[0].sems[q].prior
    ensures Inv(ws[n]) && Served(ws[0], ws[n], q, Vs(ops, q, n))
  {
    if n > 0 {
      ServedSoFar(ws, ops, q, n - 1);
      assert StepAt(ws, ops, n - 1);
      StepKeepsInv(ws[n - 1], ops[n - 1], ws[n]);
      ServedOn(ws[0], ws[n - 1], ops[n - 1], ws[n], q, Vs(ops, q, n - 1));
    }
  }

  lemma GrantedPrefix(w: World, w': World, q: nat, k: nat)
    requires Inv(w) && Inv(w') && q < |w.sems| && q < |w'.sems| && k < |w.sems[q].waiters|
    requires !w.sems[q].prior && !w'.sems[q].prior && w.logs[q].arrived <= w'.logs[q].arrived
    ensures |w'.logs[q].arrived| >= |w.logs[q].arrived| > |w.logs[q].granted| + k
    ensures |w'.logs[q].granted| > |w.logs[q].granted| + k ==>
      w'.logs[q].granted[|w.logs[q].granted| + k] == w.sems[q].waiters[k]
  {
    var i := |w.logs[q].granted| + k;
    assert SemInv(w.sems[q], w.logs[q], |w.pool|) && SemInv(w'.sems[q], w'.logs[q], |w'.pool|);
    assert w.logs[q].arrived[i] == w.sems[q].waiters[k];
    assert w'.logs[q].arrived[i] == w.logs[q].arrived[i];
  }

  lemma ServedStep(w: World, op: Op, w': World, q: nat)
    requires Inv(w) && Next(w, op, w') && q < |w.sems| && !w.sems[q].prior
    ensures q < |w'.sems| == |w'.logs| && !w'.sems[q].prior
    ensures w.logs[q].arrived <= w'.logs[q].arrived
    ensures |w'.logs[q].granted| == |w.logs[q].granted| +
      if op.V? && op.q == q && |w.logs[q].granted| < |w.logs[q].arrived| then 1 else 0
  {
  }
}
