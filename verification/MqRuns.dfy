/** Whole runs of mq_send and mq_receive on a blocking queue.

    Sends hold the pool semaphore from the check to the post of the queue's semaphore and do
    not yield in between, and a receiver does not yield between passing the queue's semaphore
    and taking its message, so each of these is one step. */
module MqRuns {
  import opened Tcbs
  import opened Sems
  import opened Untimed
  import opened Messages

  /** A pending message and its place in the order of sending. */
  datatype Entry = Entry(m: Message, no: nat)

  datatype World = World(
    queue: seq<Entry>, cap: nat, lastInOrder: nat,
    sem: Sem, pool: seq<Tcb>, woken: seq<int>,
    sent: seq<Message>, received: seq<Entry>)

  datatype Op =
    | DoSend(text: string, prio: nat, now: int)
    | DoReceive(t: int)
    | DoTake(k: nat)
    | Elsewhere(pool: seq<Tcb>)

  function Plain(es: seq<Entry>): (r: seq<Message>)
    ensures |r| == |es| && forall k :: 0 <= k < |es| ==> r[k] == es[k].m
  {
    seq(|es|, k requires 0 <= k < |es| => es[k].m)
  }

  function NewEntry(w: World, text: string, prio: nat, now: int): Entry {
    Entry(Message(Order(now, prio, w.lastInOrder), text), |w.sent|)
  }

  /** The queue after a send: the new message has joined and everything is in order again. */
  ghost predicate Joined(q: seq<Entry>, e: Entry, q': seq<Entry>) {
    multiset(q') == multiset(q) + multiset{e} && InOrder(q')
  }

  ghost predicate InOrder(q: seq<Entry>) {
    forall i, j :: 0 <= i < j < |q| ==> CompOrder(q[i].m.order, q[j].m.order) <= 0
  }

  ghost predicate Next(w: World, op: Op, w': World) {
    && SemOk(w.sem) && AllIn(w.sem.waiters, |w.pool|)
    && match op
       case DoSend(text, prio, now) =>
         if |w.queue| >= w.cap - 1 then w' == w
         else
           var e := NewEntry(w, text, prio, now);
           var (s', pool') := Unlock(w.sem, w.pool);
           && Joined(w.queue, e, w'.queue)
           && w' == w.(queue := w'.queue, lastInOrder := (w.lastInOrder + 1) % WRAP,
                       sem := s', pool := pool', sent := w.sent + [e.m],
                       woken := if w.sem.token < 0 then w.woken + [Pick(w.sem, w.pool)] else w.woken)
       case DoReceive(t) =>
         && 0 <= t < |w.pool| && w.pool[t].state == READY
         && var (s', pool', blocks, rc) := Lock(w.sem, w.pool, t, false, 0);
            var w1 := w.(sem := s', pool := pool');
            if rc == ERR_OK && !blocks then Taken(w1, w') else w' == w1
       case DoTake(k) => k < |w.woken| && Taken(w.(woken := RemoveAt(w.woken, k)), w')
       case Elsewhere(pool) => |pool| == |w.pool| && w' == w.(pool := pool)
  }

  /** Whatever happens elsewhere leaves the threads blocked here queueing. */
  ghost predicate Spares(w: World, op: Op) {
    op.Elsewhere? && AllIn(w.sem.waiters, |op.pool|) ==>
      forall i :: 0 <= i < |w.sem.waiters| ==> op.pool[w.sem.waiters[i]].state.queue
  }

  /** The first pending message is received. */
  ghost predicate Taken(w: World, w': World) {
    w.queue != [] && w' == w.(queue := w.queue[1..], received := w.received + [w.queue[0]])
  }

  /** Messages granted to a receiver that has not taken its message yet, or free to take. */
  function Count(w: World): nat {
    (if w.sem.token > 0 then w.sem.token else 0) + |w.woken|
  }

  ghost predicate Inv(w: World) {
    && Queueing(w.sem, w.pool) && InOrder(w.queue)
    && |w.queue| == Count(w) < w.cap
    && multiset(w.sent) == multiset(Plain(w.received)) + multiset(Plain(w.queue))
  }

  ghost predicate Init(w: World) {
    && w.cap > 0 && w.queue == [] && w.lastInOrder == 0
    && w.sem.token == 0 && SemOk(w.sem)
    && w.woken == [] && w.sent == [] && w.received == []
  }

  ghost predicate Run(ws: seq<World>, ops: seq<Op>) {
    |ws| == |ops| + 1 && forall i :: 0 <= i < |ops| ==> Next(ws[i], ops[i], ws[i + 1])
  }

  // ----- nothing is lost

  lemma MessagesPlus(es: seq<Entry>, e: Entry)
    ensures Plain(es + [e]) == Plain(es) + [e.m]
  {
  }

  lemma {:induction false} MessagesRearranged(s: seq<Entry>, t: seq<Entry>)
    requires multiset(s) == multiset(t)
    ensures multiset(Plain(s)) == multiset(Plain(t))
    decreases |s|
  {
    SameSize(s, t);
    if |s| > 0 {
      var k := DropCommon(s, t);
      MessagesRearranged(RemoveAt(s, 0), RemoveAt(t, k));
      MessagesWithout(s, 0);
      MessagesWithout(t, k);
    } else {
      assert Plain(s) == Plain(t);
    }
  }

  lemma MessagesWithout(s: seq<Entry>, k: nat)
    requires 0 <= k < |s|
    ensures multiset(Plain(s)) == multiset(Plain(RemoveAt(s, k))) + multiset{s[k].m}
  {
    RemoveAtMultiset(Plain(s), k);
    assert RemoveAt(Plain(s), k) == Plain(RemoveAt(s, k));
  }

  lemma MessagesLeft(es: seq<Entry>, k: nat, ms: seq<Message>)
    requires k < |es| && ms != [] && es[k].m == ms[0]
    requires multiset(Plain(es)) == multiset(ms)
    ensures multiset(Plain(RemoveAt(es, k))) == multiset(ms[1..])
  {
    MessagesWithout(es, k);
    FirstOut(ms);
    Cancel(multiset(Plain(RemoveAt(es, k))), multiset(ms[1..]), ms[0]);
  }

  /** Entries can be put in any order their messages are in. */
  lemma {:induction false} InThatOrder(es: seq<Entry>, ms: seq<Message>) returns (r: seq<Entry>)
    requires multiset(Plain(es)) == multiset(ms)
    ensures multiset(r) == multiset(es) && Plain(r) == ms
    decreases |es|
  {
    SameSize(Plain(es), ms);
    if ms == [] {
      assert es == [];
      r := [];
    } else {
      var k := DropCommon(ms, Plain(es));
      MessagesLeft(es, k, ms);
      var rest := InThatOrder(RemoveAt(es, k), ms[1..]);
      PutFirst(es, k, rest);
      r := [es[k]] + rest;
      assert Plain(r) == [es[k].m] + Plain(rest);
    }
  }

  /** What mq_send does to the messages is what these runs let it do to their entries. */
  lemma SendJoins(q: seq<Entry>, e: Entry, ms: seq<Message>) returns (q': seq<Entry>)
    requires Joins(Plain(q), e.m, ms)
    ensures Joined(q, e, q') && Plain(q') == ms
  {
    MessagesPlus(q, e);
    assert multiset(q + [e]) == multiset(q) + multiset{e};
    q' := InThatOrder(q + [e], ms);
    forall i, j | 0 <= i < j < |q'| ensures CompOrder(q'[i].m.order, q'[j].m.order) <= 0 {
      assert q'[i].m == ms[i] && q'[j].m == ms[j];
    }
  }

  lemma JoinedMessages(q: seq<Entry>, e: Entry, q': seq<Entry>)
    requires Joined(q, e, q')
    ensures |q'| == |q| + 1
    ensures multiset(Plain(q')) == multiset(Plain(q)) + multiset{e.m}
  {
    assert multiset(q + [e]) == multiset(q) + multiset{e};
    SameSize(q', q + [e]);
    MessagesRearranged(q', q + [e]);
    MessagesPlus(q, e);
  }

  lemma TakenMessages(w: World, w': World)
    requires Taken(w, w')
    ensures multiset(Plain(w'.received)) + multiset(Plain(w'.queue))
         == multiset(Plain(w.received)) + multiset(Plain(w.queue))
  {
    MessagesPlus(w.received, w.queue[0]);
    MessagesWithout(w.queue, 0);
    assert RemoveAt(w.queue, 0) == w.queue[1..];
  }

  lemma SendKeepsInv(w: World, op: Op, w': World)
    requires Inv(w) && op.DoSend? && Next(w, op, w')
    ensures Inv(w')
  {
    if |w.queue| < w.cap - 1 {
      JoinedMessages(w.queue, NewEntry(w, op.text, op.prio, op.now), w'.queue);
      UnlockKeepsQueueing(w.sem, w.pool);
      if w.sem.token < 0 { var j := UnlockReleasesOne(w.sem, w.pool); }
    }
  }

  lemma ReceiveKeepsInv(w: World, op: Op, w': World)
    requires Inv(w) && (op.DoReceive? || op.DoTake?) && Next(w, op, w')
    ensures Inv(w')
  {
    if op.DoReceive? {
      LockKeepsQueueing(w.sem, w.pool, op.t);
      var l := Lock(w.sem, w.pool, op.t, false, 0);
      if l.3 == ERR_OK && !l.2 { TakenMessages(w.(sem := l.0, pool := l.1), w'); }
    } else {
      TakenMessages(w.(woken := RemoveAt(w.woken, op.k)), w');
    }
  }

  /** A granted receiver always finds a message. */
  lemma GrantedFindsMessage(w: World)
    requires Inv(w) && (|w.woken| > 0 || w.sem.token > 0)
    ensures w.queue != []
  {
  }

  /** Sends and receives keep everything in order; what happens elsewhere does exactly if it
      leaves the blocked receivers queueing. */
  lemma StepKeepsInvIff(w: World, op: Op, w': World)
    requires Inv(w) && Next(w, op, w')
    ensures Inv(w') <==> Spares(w, op)
  {
    match op
    case DoSend(_, _, _) => SendKeepsInv(w, op, w');
    case DoReceive(_) => ReceiveKeepsInv(w, op, w');
    case DoTake(_) => ReceiveKeepsInv(w, op, w');
    case Elsewhere(_) =>
  }

  /** In every state of every run that leaves blocked receivers queueing: what was sent is what
      was received and what is pending; the pending count is the semaphore's count plus the
      granted receivers, and below mq_maxmsg; and the queue is in order. */
  lemma {:induction false} NothingLost(ws: seq<World>, ops: seq<Op>, n: nat)
    requires Run(ws, ops) && Init(ws[0]) && n <= |ops|
    requires forall i :: 0 <= i < n ==> Spares(ws[i], ops[i])
    ensures Inv(ws[n])
  {
    if n > 0 {
      NothingLost(ws, ops, n - 1);
      StepKeepsInvIff(ws[n - 1], ops[n - 1], ws[n]);
    } else {
      assert Plain(ws[0].received) == [] == Plain(ws[0].queue);
    }
  }

  /** What is received next has the highest priority of all pending messages. */
  lemma TakesHighest(w: World, w': World, k: nat)
    requires InOrder(w.queue) && Taken(w, w') && k < |w.queue|
    ensures w.queue[0].m.order.prio >= w.queue[k].m.order.prio
  {
    assert k == 0 || CompOrder(w.queue[0].m.order, w.queue[k].m.order) <= 0;
  }

  // ----- the outcome of a send

  /** No two pending messages have equal keys. */
  ghost predicate Strict(q: seq<Entry>) {
    forall i, j :: 0 <= i < j < |q| ==> CompOrder(q[i].m.order, q[j].m.order) < 0
  }

  /** How many pending messages go before `e`. */
  function Spot(q: seq<Entry>, e: Entry): (p: nat)
    ensures p <= |q|
    ensures forall k :: 0 <= k < p ==> CompOrder(q[k].m.order, e.m.order) < 0
    ensures p < |q| ==> CompOrder(q[p].m.order, e.m.order) >= 0
  {
    if q == [] || CompOrder(q[0].m.order, e.m.order) >= 0 then 0
    else
      var p := Spot(q[1..], e);
      assert forall k :: 0 < k < |q| ==> q[k] == q[1..][k - 1];
      1 + p
  }

  /** The priority queue that a send is meant to implement: the new message goes behind all
      that sort before it and ahead of all others. */
  function Insert(q: seq<Entry>, e: Entry): seq<Entry> {
    var p := Spot(q, e);
    q[..p] + [e] + q[p..]
  }

  /** Where the entries of `Insert` come from. */
  lemma InsertAt(q: seq<Entry>, e: Entry, k: int)
    requires 0 <= k <= |q|
    ensures var p := Spot(q, e);
      Insert(q, e)[k] == if k < p then q[k] else if k == p then e else q[k - 1]
  {
  }

  lemma AfterSpot(q: seq<Entry>, e: Entry, k: nat)
    requires Strict(q) && Spot(q, e) <= k < |q|
    requires forall i :: 0 <= i < |q| ==> CompOrder(q[i].m.order, e.m.order) != 0
    ensures CompOrder(e.m.order, q[k].m.order) < 0
  {
    var p := Spot(q, e);
    assert p == k || CompOrder(q[p].m.order, q[k].m.order) < 0;
  }

  lemma InsertStrict(q: seq<Entry>, e: Entry)
    requires Strict(q)
    requires forall k :: 0 <= k < |q| ==> CompOrder(q[k].m.order, e.m.order) != 0
    ensures Strict(Insert(q, e)) && multiset(Insert(q, e)) == multiset(q) + multiset{e}
    ensures forall k :: Spot(q, e) <= k < |q| ==> CompOrder(e.m.order, q[k].m.order) < 0
  {
    var p, q' := Spot(q, e), Insert(q, e);
    assert q == q[..p] + q[p..];
    forall k | p <= k < |q| ensures CompOrder(e.m.order, q[k].m.order) < 0 {
      AfterSpot(q, e, k);
    }
    forall i, j | 0 <= i < j < |q'| ensures CompOrder(q'[i].m.order, q'[j].m.order) < 0 {
      InsertAt(q, e, i);
      InsertAt(q, e, j);
    }
  }

  lemma SameFirst(s: seq<Entry>, t: seq<Entry>)
    requires Strict(s) && InOrder(t) && multiset(s) == multiset(t) && |s| > 0
    ensures |t| > 0 && s[0] == t[0]
  {
    SameSize(s, t);
    assert s[0] in multiset(t) && t[0] in multiset(s);
    var k :| 0 <= k < |t| && t[k] == s[0];
    var m :| 0 <= m < |s| && s[m] == t[0];
    assert k == 0 || CompOrder(t[0].m.order, t[k].m.order) <= 0;
    assert m == 0 || CompOrder(s[0].m.order, s[m].m.order) < 0;
  }

  lemma SameRest(s: seq<Entry>, t: seq<Entry>)
    requires multiset(s) == multiset(t) && |s| > 0 && |t| > 0 && s[0] == t[0]
    ensures multiset(s[1..]) == multiset(t[1..])
  {
    FirstOut(s);
    FirstOut(t);
    Cancel(multiset(s[1..]), multiset(t[1..]), s[0]);
  }

  lemma {:induction false} OneOrder(s: seq<Entry>, t: seq<Entry>)
    requires Strict(s) && InOrder(t) && multiset(s) == multiset(t)
    ensures s == t
    decreases |s|
  {
    SameSize(s, t);
    if |s| > 0 {
      SameFirst(s, t);
      SameRest(s, t);
      OneOrder(s[1..], t[1..]);
      assert s == [s[0]] + s[1..] && t == [t[0]] + t[1..];
    }
  }

  /** As long as keys differ, sorting after every send is inserting into a priority queue. */
  lemma SendInserts(q: seq<Entry>, e: Entry, q': seq<Entry>)
    requires Joined(q, e, q') && Strict(q)
    requires forall k :: 0 <= k < |q| ==> CompOrder(q[k].m.order, e.m.order) != 0
    ensures q' == Insert(q, e) && Strict(q')
  {
    InsertStrict(q, e);
    OneOrder(Insert(q, e), q');
  }

  // ----- first in, first out within a priority

  /** Pending messages of one priority stand in the order they were sent in. */
  ghost predicate Fifo(q: seq<Entry>) {
    forall i, j :: 0 <= i < j < |q| && q[i].m.order.prio == q[j].m.order.prio ==> q[i].no < q[j].no
  }

  /** No pending message of the new one's priority has keys that sort behind it: its time is
      not later and, within one second, its serial number is smaller. */
  ghost predicate SortsLast(q: seq<Entry>, e: Entry) {
    forall k :: 0 <= k < |q| && q[k].m.order.prio == e.m.order.prio ==>
      var o, n := q[k].m.order, e.m.order;
      o.time < n.time || (o.time == n.time && o.inOrder < n.inOrder)
  }

  /** What sorts behind the new message has another priority. */
  lemma BehindDiffers(q: seq<Entry>, e: Entry, k: nat)
    requires SortsLast(q, e) && k < |q| && CompOrder(e.m.order, q[k].m.order) < 0
    ensures q[k].m.order.prio != e.m.order.prio
  {
  }

  lemma FifoIfLast(q: seq<Entry>, e: Entry)
    requires Fifo(q) && SortsLast(q, e)
    requires forall k :: 0 <= k < |q| ==> q[k].no < e.no
    requires forall k :: Spot(q, e) <= k < |q| ==> CompOrder(e.m.order, q[k].m.order) < 0
    ensures Fifo(Insert(q, e))
  {
    hide CompOrder, SortsLast, Spot;
    var p, q' := Spot(q, e), Insert(q, e);
    forall i, j | 0 <= i < j < |q'| && q'[i].m.order.prio == q'[j].m.order.prio
      ensures q'[i].no < q'[j].no
    {
      InsertAt(q, e, i);
      InsertAt(q, e, j);
      if i == p {
        BehindDiffers(q, e, j - 1);
      }
    }
  }

  /** A send keeps the order of sending exactly when the new message sorts last among its
      equals: when the clock has not gone back and the serial number has not wrapped. */
  lemma SendKeepsFifoIff(q: seq<Entry>, e: Entry, q': seq<Entry>)
    requires Joined(q, e, q') && Strict(q) && Fifo(q)
    requires forall k :: 0 <= k < |q| ==> CompOrder(q[k].m.order, e.m.order) != 0 && q[k].no < e.no
    ensures Fifo(q') <==> SortsLast(q, e)
  {
    SendInserts(q, e, q');
    InsertStrict(q, e);
    if SortsLast(q, e) {
      FifoIfLast(q, e);
    } else {
      var k :| 0 <= k < |q| && q[k].m.order.prio == e.m.order.prio && CompOrder(q[k].m.order, e.m.order) >= 0;
      InsertAt(q, e, Spot(q, e));
      InsertAt(q, e, k + 1);
    }
  }

  /** The clock does not go back behind a pending message, and serial numbers do not repeat. */
  ghost predicate Orderly(w: World, op: Op) {
    op.DoSend? ==>
      && |w.sent| < WRAP
      && forall k :: 0 <= k < |w.queue| ==> w.queue[k].m.order.time <= op.now
  }

  /** Numbers are places in the order of sending, and serial numbers have not wrapped. */
  ghost predicate Numbered(q: seq<Entry>, n: nat) {
    forall k :: 0 <= k < |q| ==> q[k].no == q[k].m.order.inOrder < n
  }

  /** Of one priority, everything in `r` was sent before everything in `q`. */
  ghost predicate Earlier(r: seq<Entry>, q: seq<Entry>) {
    forall i, k :: 0 <= i < |r| && 0 <= k < |q| ==>
      r[i].m.order.prio == q[k].m.order.prio ==> r[i].no < q[k].no
  }

  /** The order of sending is kept, in the queue and in what has been received. */
  ghost predicate OrderInv(w: World) {
    && Strict(w.queue) && Fifo(w.queue) && Fifo(w.received)
    && (|w.sent| < WRAP ==> w.lastInOrder == |w.sent|)
    && Numbered(w.queue, |w.sent|) && Numbered(w.received, |w.sent|)
    && Earlier(w.received, w.queue)
  }

  /** A new message joins in order behind its equals. */
  lemma JoinKeepsOrder(q: seq<Entry>, r: seq<Entry>, e: Entry, q': seq<Entry>)
    requires Strict(q) && Fifo(q) && Numbered(q, e.no) && Numbered(r, e.no) && Earlier(r, q)
    requires e.m.order.inOrder == e.no && Joined(q, e, q')
    requires forall k :: 0 <= k < |q| ==> q[k].m.order.time <= e.m.order.time
    ensures Strict(q') && Fifo(q') && Numbered(q', e.no + 1) && Earlier(r, q')
  {
    SendInserts(q, e, q');
    SendKeepsFifoIff(q, e, q');
    forall k | 0 <= k < |q'| ensures q'[k] == e || q'[k] in q {
      InsertAt(q, e, k);
    }
  }

  lemma SendKeepsOrder(w: World, op: Op, w': World)
    requires OrderInv(w) && op.DoSend? && Next(w, op, w') && Orderly(w, op)
    ensures OrderInv(w')
  {
    if |w.queue| < w.cap - 1 {
      JoinKeepsOrder(w.queue, w.received, NewEntry(w, op.text, op.prio, op.now), w'.queue);
    }
  }

  lemma TakeKeepsOrder(w: World, w': World)
    requires OrderInv(w) && Taken(w, w')
    ensures OrderInv(w')
  {
  }

  lemma StepKeepsOrder(w: World, op: Op, w': World)
    requires OrderInv(w) && Next(w, op, w') && Orderly(w, op)
    ensures OrderInv(w')
  {
    match op
    case DoSend(_, _, _) => SendKeepsOrder(w, op, w');
    case DoReceive(t) =>
      var l := Lock(w.sem, w.pool, t, false, 0);
      if l.3 == ERR_OK && !l.2 { TakeKeepsOrder(w.(sem := l.0, pool := l.1), w'); }
    case DoTake(k) => TakeKeepsOrder(w.(woken := RemoveAt(w.woken, k)), w');
    case Elsewhere(_) =>
  }

  /** Within a priority, messages are received in the order they were sent in, in every run in
      which the clock does not go back and fewer than 2^32 messages are sent. */
  lemma {:induction false} ReceivedInOrder(ws: seq<World>, ops: seq<Op>, n: nat)
    requires Run(ws, ops) && Init(ws[0]) && n <= |ops|
    requires forall i :: 0 <= i < |ops| ==> Orderly(ws[i], ops[i])
    ensures OrderInv(ws[n])
  {
    if n > 0 {
      ReceivedInOrder(ws, ops, n - 1);
      StepKeepsOrder(ws[n - 1], ops[n - 1], ws[n]);
    }
  }

  /** When the serial number wraps within one second, the later message overtakes. */
  lemma WrapExample(time: int, prio: nat, a: string, b: string)
    ensures var e := Entry(Message(Order(time, prio, WRAP - 1), a), WRAP - 1);
      var e' := Entry(Message(Order(time, prio, WRAP % WRAP), b), WRAP);
      Strict([e]) && Fifo([e]) && !SortsLast([e], e') && Insert([e], e') == [e', e]
  {
    var e := Entry(Message(Order(time, prio, WRAP - 1), a), WRAP - 1);
    var e' := Entry(Message(Order(time, prio, WRAP % WRAP), b), WRAP);
    assert CompOrder([e][0].m.order, e'.m.order) > 0;
    assert Spot([e], e') == 0;
  }
}
