/** Fixed-size message queues: q_create, q_send and q_receive. */
module MsgQueue {
  import opened Tcbs
  import opened Ring
  import opened Itc
  import opened Sems
  import opened Untimed

  /** q_t: four words. */
  datatype Msg = Msg(w0: int, w1: int, w2: int, w3: int)

  /** A queue: its semaphore counts messages, its slots hold them. */
  datatype Q = Q(sem: Sem, slots: seq<Msg>, minIdx: nat, moutIdx: nat)

  ghost predicate QOk(q: Q) {
    SemOk(q.sem) && q.minIdx < |q.slots| && q.moutIdx < |q.slots|
  }

  function Put(q: Q, m: Msg): Q
    requires q.minIdx < |q.slots|
  {
    q.(slots := q.slots[q.minIdx := m], minIdx := Inc(q.minIdx, |q.slots|))
  }

  /** q_send: the message is stored first, then the semaphore is unlocked. */
  function Send(q: Q, pool: seq<Tcb>, m: Msg): (r: (Q, seq<Tcb>, Code))
    requires QOk(q) && AllIn(q.sem.waiters, |pool|)
  {
    if q.sem.token > 0 && q.sem.token >= |q.slots| then (q, pool, ERR_FULL)
    else
      var (s', pool') := Unlock(q.sem, pool);
      (Put(q, m).(sem := s'), pool', ERR_OK)
  }

  /** The part of q_receive after the lock stage. */
  function Fetch(q: Q): (r: (Q, Msg))
    requires q.moutIdx < |q.slots|
  {
    (q.(moutIdx := Inc(q.moutIdx, |q.slots|)), q.slots[q.moutIdx])
  }

  datatype Received = Got(m: Msg) | Waits(mark: nat) | Failed(rc: Code)

  class Queue {
    const itc: Semaphore
    const q: array<Msg>
    var minIdx: nat
    var moutIdx: nat

    ghost predicate Valid()
      reads this, itc, itc.blocked
    {
      itc.Valid() && minIdx < q.Length && moutIdx < q.Length
    }

    ghost function Model(): Q
      requires Valid()
      reads this, itc, itc.blocked, q
    {
      Q(itc.Model(), q[..], minIdx, moutIdx)
    }

    /** q_create, once memory has been found; a queue of no messages cannot be used. */
    constructor (count: nat, maxBlocked: nat, levels: nat, prior: bool)
      requires count > 0 && 0 < maxBlocked < UINT_MAX
      ensures Valid() && itc.kind == S_QUEUE
      ensures Model().sem == Sem(0, [], prior, maxBlocked)
      ensures q.Length == count && minIdx == moutIdx == 0
    {
      itc := new Semaphore(maxBlocked, levels, 0, prior, S_QUEUE);
      q := new Msg[count](_ => Msg(0, 0, 0, 0));
      minIdx, moutIdx := 0, 0;
    }

    /** q_send up to the yield of the unlock stage, once the queue has been found. */
    method SendOn(pool: array<Tcb>, m: Msg) returns (rc: Code)
      requires Valid() && itc.Serves(pool)
      modifies this`minIdx, q, pool, itc.blocked, itc`token, itc`inIdx, itc`outIdx, itc`waiters
      ensures Valid()
      ensures Model() == old(Send(Model(), pool[..], m)).0
      ensures pool[..] == old(Send(Model(), pool[..], m)).1
      ensures rc == old(Send(Model(), pool[..], m)).2
    {
      if itc.token > 0 {
        if !(itc.token < q.Length) {
          return ERR_FULL;
        }
      }
      q[minIdx] := m;
      minIdx := Inc(minIdx, q.Length);
      itc.UnlockStage(pool);
      rc := ERR_OK;
    }

    /** q_receive up to the yield of the lock stage, if it blocks, and to the end if not, once
        the queue has been found. */
    method ReceiveOn(pool: array<Tcb>, self: int, nowait: bool, timeout: nat, now: int) returns (r: Received)
      requires Valid() && 0 <= self < pool.Length
      modifies this`moutIdx, pool, itc.blocked, itc`token, itc`inIdx, itc`waiters
      ensures Valid()
      ensures old(itc.token) <= 0 && nowait ==>
        r == Failed(ERR_NOSEM) && Model() == old(Model()) && pool[..] == old(pool[..])
      ensures !(old(itc.token) <= 0 && nowait) ==>
        var l := old(Lock(itc.Model(), pool[..], self, timeout != 0, now + timeout));
        var locked := old(Model()).(sem := l.0);
        && pool[..] == l.1
        && (if l.2 then r.Waits? && Model() == locked
            else if l.3 != ERR_OK then r == Failed(l.3) && Model() == locked
            else r == Got(Fetch(locked).1) && Model() == Fetch(locked).0)
    {
      if itc.token <= 0 && nowait {
        return Failed(ERR_NOSEM);
      }
      var o := itc.LockEnter(pool, self, timeout, now);
      match o
      case Blocked(mark) => r := Waits(mark);
      case Returned(rc) =>
        if rc != ERR_OK {
          return Failed(rc);
        }
        var m := QFetch();
        r := Got(m);
    }

    /** The rest of q_receive once the receiver has been granted a message. */
    method QFetch() returns (m: Msg)
      requires Valid()
      modifies this`moutIdx
      ensures Valid()
      ensures Model() == old(Fetch(Model())).0 && m == old(Fetch(Model())).1
    {
      m := q[moutIdx];
      moutIdx := Inc(moutIdx, q.Length);
    }
  }

  /** What is in the slot that the queue's number names is a queue of this kind. */
  predicate Names(q: Queue?)
    reads q, if q == null then {} else {q.itc}
  {
    q != null && q.itc.kind == S_QUEUE
  }

  function Objects(q: Queue?): set<object> {
    if q == null then {} else {q, q.q, q.itc, q.itc.blocked}
  }

  /** q_send up to the yield of the unlock stage. */
  method QSend(q: Queue?, pool: array<Tcb>, m: Msg) returns (rc: Code)
    requires Names(q) ==> q.Valid() && q.itc.Serves(pool)
    modifies Objects(q), pool
    ensures q == null ==> rc == ERR_OBJDEL
    ensures q != null && old(q.itc.kind) != S_QUEUE ==> rc == ERR_OBJTYPE
    ensures !old(Names(q)) ==> unchanged(Objects(q), pool)
    ensures old(Names(q)) ==>
      && q.Valid() && Names(q)
      && (q.Model(), pool[..], rc) == old(Send(q.Model(), pool[..], m))
    ensures old(Names(q)) && old(q.itc.token > 0 && q.itc.token >= q.q.Length) ==>
      rc == ERR_FULL && q.Model() == old(q.Model()) && pool[..] == old(pool[..])
    ensures old(Names(q)) && !old(q.itc.token > 0 && q.itc.token >= q.q.Length) ==>
      && rc == ERR_OK && q.q[..] == old(q.q[..])[old(q.minIdx) := m] && q.moutIdx == old(q.moutIdx)
      && q.minIdx == (if old(q.minIdx) + 1 == q.q.Length then 0 else old(q.minIdx) + 1)
      && (old(q.itc.token) >= 0 ==> q.itc.token == old(q.itc.token) + 1 && pool[..] == old(pool[..]))
  {
    if q == null {
      return ERR_OBJDEL;
    }
    if q.itc.kind != S_QUEUE {
      return ERR_OBJTYPE;
    }
    rc := q.SendOn(pool, m);
  }

  /** q_receive up to the yield of the lock stage, if it blocks, and to the end if not. */
  method QReceive(q: Queue?, pool: array<Tcb>, self: int, nowait: bool, timeout: nat, now: int) returns (r: Received)
    requires (Names(q) ==> q.Valid()) && 0 <= self < pool.Length
    modifies Objects(q), pool
    ensures q == null ==> r == Failed(ERR_OBJDEL)
    ensures q != null && old(q.itc.kind) != S_QUEUE ==> r == Failed(ERR_OBJTYPE)
    ensures !old(Names(q)) ==> unchanged(Objects(q), pool)
    ensures old(Names(q)) ==> q.Valid() && Names(q)
    ensures old(Names(q)) && old(q.itc.token) <= 0 && nowait ==>
      r == Failed(ERR_NOSEM) && q.Model() == old(q.Model()) && pool[..] == old(pool[..])
    ensures old(Names(q)) && old(q.itc.token) > 0 ==>
      && r == Got(old(q.q[q.moutIdx])) && q.itc.token == old(q.itc.token) - 1 && pool[..] == old(pool[..])
      && q.moutIdx == (if old(q.moutIdx) + 1 == q.q.Length then 0 else old(q.moutIdx) + 1)
      && q.q[..] == old(q.q[..]) && q.minIdx == old(q.minIdx)
    ensures old(Names(q)) && old(q.itc.token) <= 0 && !nowait ==>
      if -old(q.itc.token) >= q.itc.blocked.Length - 1 then r == Failed(ERR_BLOCKLIMIT) && q.Model() == old(q.Model())
      else r.Waits? && q.itc.waiters == old(q.itc.waiters) + [self]
    ensures old(Names(q)) && !(old(q.itc.token) <= 0 && nowait) ==>
      var l := old(Lock(q.itc.Model(), pool[..], self, timeout != 0, now + timeout));
      var locked := old(q.Model()).(sem := l.0);
      && pool[..] == l.1
      && (if l.2 then r.Waits? && q.Model() == locked
          else if l.3 != ERR_OK then r == Failed(l.3) && q.Model() == locked
          else r == Got(Fetch(locked).1) && q.Model() == Fetch(locked).0)
  {
    if q == null {
      return Failed(ERR_OBJDEL);
    }
    if q.itc.kind != S_QUEUE {
      return Failed(ERR_OBJTYPE);
    }
    r := q.ReceiveOn(pool, self, nowait, timeout, now);
  }

  // ----- whole runs with untimed receivers

  /** `woken` are the receivers that were released but have not fetched yet. */
  datatype World = World(q: Q, pool: seq<Tcb>, woken: seq<int>, sent: seq<Msg>, fetched: seq<Msg>)

  /** `Elsewhere` stands for whatever happens to the threads outside this queue between two
      of its steps. */
  datatype Op =
    | DoSend(m: Msg)
    | DoReceive(t: int, nowait: bool)
    | DoFetch(k: nat)
    | Elsewhere(pool: seq<Tcb>)

  /** Messages promised to somebody or free to take. */
  function Count(w: World): nat {
    (if w.q.sem.token > 0 then w.q.sem.token else 0) + |w.woken|
  }

  ghost predicate Next(w: World, op: Op, w': World) {
    && QOk(w.q) && AllIn(w.q.sem.waiters, |w.pool|)
    && match op
       case DoSend(m) =>
         var (q', pool', rc) := Send(w.q, w.pool, m);
         if rc != ERR_OK then w' == w
         else w' == w.(q := q', pool := pool', sent := w.sent + [m],
                       woken := if w.q.sem.token < 0 then w.woken + [Pick(w.q.sem, w.pool)] else w.woken)
       case DoReceive(t, nowait) =>
         && 0 <= t < |w.pool| && w.pool[t].state == READY
         && (if w.q.sem.token <= 0 && nowait then w' == w
             else
               var (s', pool', blocks, rc) := Lock(w.q.sem, w.pool, t, false, 0);
               var w1 := w.(q := w.q.(sem := s'), pool := pool');
               w' == if rc == ERR_OK && !blocks then Fetched(w1) else w1)
       case DoFetch(k) => k < |w.woken| && w' == Fetched(w.(woken := RemoveAt(w.woken, k)))
       case Elsewhere(pool) => |pool| == |w.pool| && w' == w.(pool := pool)
  }

  /** Whatever happens elsewhere leaves the threads blocked here queueing. */
  ghost predicate Spares(w: World, op: Op) {
    op.Elsewhere? && AllIn(w.q.sem.waiters, |op.pool|) ==>
      forall i :: 0 <= i < |w.q.sem.waiters| ==> op.pool[w.q.sem.waiters[i]].state.queue
  }

  function Fetched(w: World): World
    requires w.q.moutIdx < |w.q.slots|
  {
    w.(q := Fetch(w.q).0, fetched := w.fetched + [Fetch(w.q).1])
  }

  /** The slot of the `j`-th message ever sent. */
  function Pos(j: nat, n: nat): (r: nat)
    requires n > 0
    ensures r < n
  {
    if j == 0 then 0 else Inc(Pos(j - 1, n), n)
  }

  lemma {:induction false} PosAdd(j: nat, d: nat, n: nat)
    requires n > 0 && d <= n
    ensures Pos(j + d, n) == if Pos(j, n) + d < n then Pos(j, n) + d else Pos(j, n) + d - n
  {
    if d > 0 {
      PosAdd(j, d - 1, n);
    }
  }

  /** What holds however many messages are sent. */
  ghost predicate Counted(w: World) {
    && QOk(w.q) && Queueing(w.q.sem, w.pool)
    && |w.sent| == |w.fetched| + Count(w)
    && w.q.minIdx == Pos(|w.sent|, |w.q.slots|)
    && w.q.moutIdx == Pos(|w.fetched|, |w.q.slots|)
  }

  /** Every message sent and not yet fetched still lies in its slot. */
  ghost predicate Intact(w: World)
    requires |w.q.slots| > 0
  {
    forall j :: |w.fetched| <= j < |w.sent| ==> w.q.slots[Pos(j, |w.q.slots|)] == w.sent[j]
  }

  ghost predicate Inv(w: World) {
    Counted(w) && Intact(w) && w.fetched <= w.sent
  }

  ghost predicate Init(w: World) {
    && QOk(w.q) && w.q.sem.token == 0 && w.q.minIdx == w.q.moutIdx == 0
    && w.woken == [] && w.sent == [] && w.fetched == []
  }

  ghost predicate Roomy(w: World, op: Op) {
    op.DoSend? ==> Count(w) < |w.q.slots|
  }

  ghost predicate Run(ws: seq<World>, ops: seq<Op>) {
    |ws| == |ops| + 1 && forall i :: 0 <= i < |ops| ==> Next(ws[i], ops[i], ws[i + 1])
  }

  lemma SendCounts(w: World, op: Op, w': World)
    requires Counted(w) && op.DoSend? && Next(w, op, w')
    ensures Counted(w')
  {
    UnlockKeepsQueueing(w.q.sem, w.pool);
    if w.q.sem.token < 0 {
      var j := UnlockReleasesOne(w.q.sem, w.pool);
    }
  }

  lemma ReceiveCounts(w: World, op: Op, w': World)
    requires Counted(w) && op.DoReceive? && Next(w, op, w')
    ensures Counted(w')
  {
    LockKeepsQueueing(w.q.sem, w.pool, op.t);
  }

  /** The cursors and the counts hold after every step, whoever overwrites what, and the blocked
      threads are in order unless they are disturbed elsewhere. */
  lemma StepCountsIff(w: World, op: Op, w': World)
    requires Counted(w) && Next(w, op, w')
    ensures Counted(w') <==> Spares(w, op)
  {
    match op
    case DoSend(_) => SendCounts(w, op, w');
    case DoReceive(_, _) => ReceiveCounts(w, op, w');
    case DoFetch(k) =>
    case Elsewhere(pool) =>
  }

  /** The `j`-th message is not overwritten by the next one. */
  lemma OtherSlot(slots: seq<Msg>, n: nat, j: nat)
    requires j < n < j + |slots|
    ensures Pos(j, |slots|) != Pos(n, |slots|)
  {
    PosAdd(j, n - j, |slots|);
  }

  lemma RoomKeeps(slots: seq<Msg>, sent: seq<Msg>, f: nat, m: Msg)
    requires f <= |sent| < f + |slots|
    requires forall j :: f <= j < |sent| ==> slots[Pos(j, |slots|)] == sent[j]
    ensures forall j :: f <= j < |sent| + 1 ==>
      slots[Pos(|sent|, |slots|) := m][Pos(j, |slots|)] == (sent + [m])[j]
  {
    hide Pos;
    forall j | f <= j < |sent| + 1
      ensures slots[Pos(|sent|, |slots|) := m][Pos(j, |slots|)] == (sent + [m])[j]
    {
      if j < |sent| {
        OtherSlot(slots, |sent|, j);
      }
    }
  }

  /** A send keeps every unfetched message if and only if there was room for it, or it
      happens to repeat the message it overwrites. */
  lemma SendKeepsMessagesIff(w: World, m: Msg, w': World)
    requires Inv(w) && Next(w, DoSend(m), w') && w'.sent != w.sent
    ensures Intact(w') <==> Count(w) < |w.q.slots| || m == w.q.slots[w.q.minIdx]
  {
    var n, e := |w.q.slots|, |w.sent|;
    assert w'.q.slots == w.q.slots[Pos(e, n) := m] && w'.fetched == w.fetched;
    if Count(w) < n {
      RoomKeeps(w.q.slots, w.sent, |w.fetched|, m);
    } else {
      PosAdd(e - n, n, n);
      assert w'.sent[e - n] == w.sent[e - n] == w.q.slots[w.q.minIdx];
    }
  }

  /** A send is refused exactly if all slots count as taken; refused, it changes nothing.  While
      no receiver is woken and still to fetch, it loses no unfetched message. */
  lemma FullCheckProtects(w: World, m: Msg, w': World)
    requires Counted(w) && Intact(w) && Next(w, DoSend(m), w')
    ensures w'.sent == (if w.q.sem.token > 0 && w.q.sem.token >= |w.q.slots| then w.sent else w.sent + [m])
    ensures w'.sent == w.sent ==> w' == w
    ensures w.woken == [] ==> Intact(w')
  {
    if w'.sent != w.sent && w.woken == [] {
      assert w'.q.slots == w.q.slots[Pos(|w.sent|, |w.q.slots|) := m];
      RoomKeeps(w.q.slots, w.sent, |w.fetched|, m);
    }
  }

  lemma StepKeepsToken(w: World, op: Op, w': World)
    requires Next(w, op, w') && w.q.sem.token <= |w.q.slots|
    ensures |w'.q.slots| == |w.q.slots| && w'.q.sem.token <= |w'.q.slots|
  {
  }

  /** In every state of every run the count of free messages is at most the number of slots. */
  lemma {:induction false} TokenAtMostSlots(ws: seq<World>, ops: seq<Op>, n: nat)
    requires Run(ws, ops) && Init(ws[0]) && n <= |ops|
    ensures |ws[n].q.slots| == |ws[0].q.slots| && ws[n].q.sem.token <= |ws[n].q.slots|
  {
    if n > 0 {
      TokenAtMostSlots(ws, ops, n - 1);
      StepKeepsToken(ws[n - 1], ops[n - 1], ws[n]);
    }
  }

  /** Taking the message at the out-cursor takes the oldest one. */
  lemma FetchTakesOldest(w: World)
    requires |w.q.slots| > 0 && w.q.moutIdx == Pos(|w.fetched|, |w.q.slots|)
    requires w.fetched <= w.sent && Intact(w) && |w.fetched| < |w.sent|
    ensures Fetched(w).fetched == w.sent[..|w.fetched| + 1]
    ensures Intact(Fetched(w))
  {
  }

  lemma StepKeepsInv(w: World, op: Op, w': World)
    requires Inv(w) && Next(w, op, w') && Roomy(w, op) && Spares(w, op)
    ensures Inv(w')
  {
    StepCountsIff(w, op, w');
    match op
    case DoSend(m) =>
      if w'.sent != w.sent { SendKeepsMessagesIff(w, m, w'); }
    case DoReceive(t, nowait) =>
      if w'.fetched != w.fetched { FetchTakesOldest(w); }
    case DoFetch(k) =>
      FetchTakesOldest(w);
    case Elsewhere(pool) =>
  }

  /** Without overruns or disturbances, the k-th fetch of every run returns the k-th message sent, whichever
      receiver performs it, and nothing is lost. */
  lemma {:induction false} FetchedInOrder(ws: seq<World>, ops: seq<Op>)
    requires Run(ws, ops) && Init(ws[0])
    requires forall i :: 0 <= i < |ops| ==> Roomy(ws[i], ops[i]) && Spares(ws[i], ops[i])
    ensures forall i :: 0 <= i < |ws| ==>
      && Inv(ws[i])
      && ws[i].fetched == ws[i].sent[..|ws[i].fetched|]
      && |ws[i].sent| - |ws[i].fetched| == Count(ws[i]) <= |ws[i].q.slots|
  {
    forall i | 0 <= i < |ws|
      ensures Inv(ws[i]) && Count(ws[i]) <= |ws[i].q.slots|
    {
      InvAt(ws, ops, i);
    }
  }

  /** A send while no receiver is woken and still to fetch. */
  ghost predicate Unhurried(w: World, op: Op) {
    op.DoSend? ==> w.woken == []
  }

  /** The full check is enough for that, too, if every receiver that is woken fetches before the
      next send. */
  lemma {:induction false} UnhurriedInOrder(ws: seq<World>, ops: seq<Op>, n: nat)
    requires Run(ws, ops) && Init(ws[0]) && n <= |ops|
    requires forall i :: 0 <= i < |ops| ==> Unhurried(ws[i], ops[i]) && Spares(ws[i], ops[i])
    ensures Inv(ws[n]) && ws[n].fetched == ws[n].sent[..|ws[n].fetched|]
  {
    if n > 0 {
      UnhurriedInOrder(ws, ops, n - 1);
      UnhurriedStep(ws[n - 1], ops[n - 1], ws[n]);
    }
  }

  lemma UnhurriedStep(w: World, op: Op, w': World)
    requires Inv(w) && Next(w, op, w') && Unhurried(w, op) && Spares(w, op)
    ensures Inv(w')
  {
    if op.DoSend? {
      StepCountsIff(w, op, w');
      FullCheckProtects(w, op.m, w');
    } else {
      StepKeepsInv(w, op, w');
    }
  }

  /** A step that overruns nothing leaves no more messages than there are slots. */
  lemma StepKeepsRoom(w: World, op: Op, w': World)
    requires Counted(w) && Next(w, op, w') && Roomy(w, op) && Count(w) <= |w.q.slots|
    ensures |w'.q.slots| == |w.q.slots| && Count(w') <= |w'.q.slots|
  {
  }

  lemma {:induction false} InvAt(ws: seq<World>, ops: seq<Op>, n: nat)
    requires Run(ws, ops) && Init(ws[0]) && n <= |ops|
    requires forall i :: 0 <= i < |ops| ==> Roomy(ws[i], ops[i]) && Spares(ws[i], ops[i])
    ensures Inv(ws[n]) && Count(ws[n]) <= |ws[n].q.slots|
  {
    if n > 0 {
      InvAt(ws, ops, n - 1);
      StepKeepsInv(ws[n - 1], ops[n - 1], ws[n]);
      StepKeepsRoom(ws[n - 1], ops[n - 1], ws[n]);
    }
  }

  /** The states of a run in which a queue of one message is overrun. */
  function Overrun(m1: Msg, m2: Msg, idle: Tcb, i: int): World {
    var blocked := Block(idle, false, 0);
    var released := Released(blocked);
    var zero := Msg(0, 0, 0, 0);
    if i == 0 then World(Q(Sem(0, [], false, 2), [zero], 0, 0), [idle], [], [], [])
    else if i == 1 then World(Q(Sem(-1, [0], false, 2), [zero], 0, 0), [blocked], [], [], [])
    else if i == 2 then World(Q(Sem(0, [], false, 2), [m1], 0, 0), [released], [0], [m1], [])
    else if i == 3 then World(Q(Sem(1, [], false, 2), [m2], 0, 0), [released], [0], [m1, m2], [])
    else World(Q(Sem(1, [], false, 2), [m2], 0, 0), [released], [], [m1, m2], [m2])
  }

  lemma OverrunFirstSend(m1: Msg, m2: Msg, idle: Tcb)
    ensures Next(Overrun(m1, m2, idle, 1), DoSend(m1), Overrun(m1, m2, idle, 2))
  {
    var w := Overrun(m1, m2, idle, 1);
    assert FifoPick(w.q.sem.waiters, w.pool) == 0;
    assert w.q.sem.waiters[1..] == [];
    assert Put(w.q, m1).slots == [m1];
  }

  lemma OverrunSecondSend(m1: Msg, m2: Msg, idle: Tcb)
    ensures Next(Overrun(m1, m2, idle, 2), DoSend(m2), Overrun(m1, m2, idle, 3))
  {
    var w := Overrun(m1, m2, idle, 2);
    assert Put(w.q, m2).slots == [m2];
    assert w.sent + [m2] == [m1, m2];
  }

  lemma OverrunReceive(m1: Msg, m2: Msg, idle: Tcb)
    requires idle.state == READY
    ensures Next(Overrun(m1, m2, idle, 0), DoReceive(0, false), Overrun(m1, m2, idle, 1))
    ensures Next(Overrun(m1, m2, idle, 3), DoFetch(0), Overrun(m1, m2, idle, 4))
  {
    var w := Overrun(m1, m2, idle, 0);
    assert w.q.sem.waiters + [0] == [0];
    assert w.pool[0 := Block(idle, false, 0)] == [Block(idle, false, 0)];
    assert RemoveAt([0], 0) == [];
  }

  function OverrunOp(m1: Msg, m2: Msg, i: int): Op {
    if i == 0 then DoReceive(0, false) else if i == 1 then DoSend(m1) else if i == 2 then DoSend(m2) else DoFetch(0)
  }

  lemma OverrunStep(m1: Msg, m2: Msg, idle: Tcb, i: int)
    requires idle.state == READY && 0 <= i < 4
    ensures Next(Overrun(m1, m2, idle, i), OverrunOp(m1, m2, i), Overrun(m1, m2, idle, i + 1))
  {
    if i == 1 {
      OverrunFirstSend(m1, m2, idle);
    } else if i == 2 {
      OverrunSecondSend(m1, m2, idle);
    } else {
      OverrunReceive(m1, m2, idle);
    }
  }

  /** With an overrun the order is lost: on a queue of one message, a receiver that was
      woken but has not run yet gets the second message sent, and the first is gone. */
  lemma OverrunExample(m1: Msg, m2: Msg, idle: Tcb) returns (ws: seq<World>, ops: seq<Op>)
    requires idle.state == READY
    ensures Run(ws, ops) && |ws| == 5 && Init(ws[0])
    ensures ws[4].sent == [m1, m2] && ws[4].fetched == [m2]
  {
    ops := seq(4, i => OverrunOp(m1, m2, i));
    ws := seq(5, i => Overrun(m1, m2, idle, i));
    forall i | 0 <= i < |ops| ensures Next(ws[i], ops[i], ws[i + 1]) {
      OverrunStep(m1, m2, idle, i);
    }
  }

  /** The kernel's self-check, called after both stages, holds in every such state. */
  lemma SelfCheckHolds(w: World)
    requires Counted(w)
    ensures w.q.sem.token >= 0 || forall k :: 0 <= k < |w.q.sem.waiters| ==>
      var s := w.pool[w.q.sem.waiters[k]].state; s.queue || s == READY
  {
  }
}
