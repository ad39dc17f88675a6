/** Runs of one semaphore with every mix of timed and untimed waits. */
module TimedRuns {
  import opened Tcbs
  import opened Sems
  import opened Untimed

  /** What has become of a wait with a time limit. */
  datatype Fate = Pending | Granted | RunOut

  datatype Wait = None | Limited(fate: Fate) | Unlimited

  /** `waits` records which threads are in the lock stage, and what happened to them there. */
  datatype World = World(s: Sem, pool: seq<Tcb>, waits: seq<Wait>)

  /** `Leave` is a thread with a time limit that runs again and returns `rc`, with its marked
      slot `d` steps after the out-cursor; no more is claimed of marks, which go stale.
      `Return` is one without a limit. */
  datatype Op =
    | Enter(t: int, timed: bool, wake: int)
    | Signal
    | Expire(t: int)
    | Leave(t: int, d: nat, rc: Code)
    | Return(t: int)

  function Expired(t: Tcb): Tcb {
    t.(state := t.state.(queue := false, sleep := false), wakeupEvent := E_TIMER)
  }

  ghost predicate Ok(w: World) {
    SemOk(w.s) && AllIn(w.s.waiters, |w.pool|) && |w.waits| == |w.pool|
  }

  /** What befalls thread `t`, if it is waiting with a limit. */
  function Befalls(waits: seq<Wait>, t: int, fate: Fate): (r: seq<Wait>)
    requires 0 <= t < |waits|
    ensures |r| == |waits|
  {
    if waits[t].Limited? then waits[t := Limited(fate)] else waits
  }

  ghost predicate Next(w: World, op: Op, w': World) {
    && Ok(w)
    && match op
       case Enter(t, timed, wake) =>
         && 0 <= t < |w.pool| && w.pool[t].state == READY && w.waits[t] == None
         && var l := Lock(w.s, w.pool, t, timed, wake);
            w' == World(l.0, l.1, if !l.2 then w.waits else w.waits[t := if timed then Limited(Pending) else Unlimited])
       case Signal =>
         var u := Unlock(w.s, w.pool);
         w' == World(u.0, u.1, if w.s.token < 0 then Befalls(w.waits, Pick(w.s, w.pool), Granted) else w.waits)
       case Expire(t) =>
         && 0 <= t < |w.pool| && w.pool[t].state.sleep
         && w' == World(w.s, w.pool[t := Expired(w.pool[t])], Befalls(w.waits, t, RunOut))
       case Leave(t, d, rc) =>
         && 0 <= t < |w.pool| && w.pool[t].state == READY && w.waits[t].Limited?
         && var r := Resume(w.s, w.pool, t, d);
            w' == World(r.0, r.1, w.waits[t := None]) && rc == r.2
       case Return(t) =>
         && 0 <= t < |w.pool| && w.pool[t].state == READY && w.waits[t] == Unlimited
         && w' == w.(waits := w.waits[t := None])
  }

  lemma SignalKeepsOk(s: Sem, pool: seq<Tcb>)
    requires SemOk(s) && AllIn(s.waiters, |pool|)
    ensures SemOk(Unlock(s, pool).0) && AllIn(Unlock(s, pool).0.waiters, |Unlock(s, pool).1|)
  {
    if s.token < 0 && s.prior {
      RemoveAtIn(s.waiters, FirstMin(s.waiters, pool), |pool|);
    }
  }

  lemma LeaveKeepsOk(s: Sem, pool: seq<Tcb>, t: int, d: nat)
    requires SemOk(s) && AllIn(s.waiters, |pool|) && 0 <= t < |pool|
    ensures var r := Resume(s, pool, t, d); SemOk(r.0) && AllIn(r.0.waiters, |r.1|)
  {
    if s.token < 0 {
      var ws := RemoveAt(s.waiters, Victim(d, |s.waiters|));
      RemoveAtIn(s.waiters, Victim(d, |s.waiters|), |pool|);
    }
  }

  /** In every state of every run: with units free or none missing the ring is empty, else it
      holds as many threads as units are missing, and it never overfills. */
  lemma {:induction false} AlwaysAgrees(ws: seq<World>, ops: seq<Op>, n: nat)
    requires |ws| == |ops| + 1 && Ok(ws[0]) && n < |ws|
    requires forall i :: 0 <= i < |ops| ==> Next(ws[i], ops[i], ws[i + 1])
    ensures Ok(ws[n])
    ensures ws[n].s.token >= 0 ==> ws[n].s.waiters == []
    ensures ws[n].s.token <= 0 ==> |ws[n].s.waiters| == -ws[n].s.token < ws[n].s.cap
  {
    if n > 0 {
      AlwaysAgrees(ws, ops, n - 1);
      var w := ws[n - 1];
      assert Next(w, ops[n - 1], ws[n]);
      match ops[n - 1]
      case Signal => SignalKeepsOk(w.s, w.pool);
      case Leave(t, d, _) => LeaveKeepsOk(w.s, w.pool, t, d);
      case _ =>
    }
  }

  // ----- the answer of a wait with a time limit

  /** What a thread in such a wait finds. */
  ghost predicate Found(x: Tcb, wait: Wait) {
    match wait
    case Limited(Pending) => x.state.sleep
    case Limited(Granted) => !x.state.sleep && x.wakeupEvent == E_ITC
    case Limited(RunOut) => !x.state.sleep && (x.wakeupEvent == E_TIMER || x.wakeupEvent == E_ITC2)
    case _ => true
  }

  ghost predicate AllFound(pool: seq<Tcb>, waits: seq<Wait>) {
    |waits| == |pool| && forall t :: 0 <= t < |pool| ==> Found(pool[t], waits[t])
  }

  /** Being noted by another's sweep is running out, too. */
  lemma {:induction false} SweepKeepsFound(ws: seq<int>, pool: seq<Tcb>, k: nat, waits: seq<Wait>)
    requires AllIn(ws, |pool|) && k <= |ws| && AllFound(pool, waits)
    ensures AllFound(Sweep(ws, pool, k).1, waits)
    decreases |ws| - k
  {
    if k < |ws| {
      var o := SweepOne(ws, pool, k);
      if o.2 != |o.0| {
        SweepKeepsFound(o.0, o.1, o.2 + 1, waits);
      }
    }
  }

  lemma LeaveKeepsFound(s: Sem, pool: seq<Tcb>, t: int, d: nat, waits: seq<Wait>)
    requires SemOk(s) && AllIn(s.waiters, |pool|) && 0 <= t < |pool| && AllFound(pool, waits)
    ensures AllFound(Resume(s, pool, t, d).1, waits)
  {
    if s.token < -1 {
      var v := Victim(d, |s.waiters|);
      RemoveAtIn(s.waiters, v, |pool|);
      SweepKeepsFound(RemoveAt(s.waiters, v), pool, 0, waits);
    }
  }

  ghost predicate Run(ws: seq<World>, ops: seq<Op>) {
    && |ws| == |ops| + 1 && Ok(ws[0]) && (forall t :: 0 <= t < |ws[0].waits| ==> ws[0].waits[t] == None)
    && forall i :: 0 <= i < |ops| ==> StepAt(ws, ops, i)
  }

  ghost predicate StepAt(ws: seq<World>, ops: seq<Op>, i: nat)
    requires i < |ops| < |ws|
  {
    Next(ws[i], ops[i], ws[i + 1])
  }

  lemma StepKeepsFound(w: World, op: Op, w': World)
    requires Next(w, op, w') && AllFound(w.pool, w.waits)
    ensures AllFound(w'.pool, w'.waits)
  {
    match op
    case Leave(t, d, _) => LeaveKeepsFound(w.s, w.pool, t, d, w.waits);
    case _ =>
  }

  lemma {:induction false} AlwaysFound(ws: seq<World>, ops: seq<Op>, n: nat)
    requires Run(ws, ops) && n <= |ops|
    ensures AllFound(ws[n].pool, ws[n].waits)
  {
    if n > 0 {
      AlwaysFound(ws, ops, n - 1);
      assert StepAt(ws, ops, n - 1);
      StepKeepsFound(ws[n - 1], ops[n - 1], ws[n]);
    }
  }

  /** The answer, in every run: ERR_OK exactly if an unlock has picked the thread, and then
      nothing changes; ERR_TIMEOUT exactly if its time has run out, whether or not another one
      has noted it since. */
  lemma LeaveAnswers(ws: seq<World>, ops: seq<Op>, n: nat)
    requires Run(ws, ops) && n < |ops| && ops[n].Leave?
    ensures var t := ops[n].t; 0 <= t < |ws[n].waits| && ws[n].waits[t].Limited? && ws[n].waits[t].fate != Pending
    ensures ops[n].rc == if ws[n].waits[ops[n].t].fate == Granted then ERR_OK else ERR_TIMEOUT
    ensures ws[n].waits[ops[n].t].fate == Granted ==> ws[n + 1].s == ws[n].s && ws[n + 1].pool == ws[n].pool
  {
    AlwaysFound(ws, ops, n);
    assert StepAt(ws, ops, n);
    assert Found(ws[n].pool[ops[n].t], ws[n].waits[ops[n].t]);
  }

  /** The step by which thread `t` meets its fate. */
  ghost predicate Meets(w: World, op: Op, t: int, fate: Fate) {
    match fate
    case Granted => op == Signal && Ok(w) && w.s.token < 0 && Pick(w.s, w.pool) == t
    case RunOut => op == Expire(t)
    case Pending => op.Enter? && op.t == t && op.timed
  }

  /** Every fate goes back to its event, with nothing in between. */
  lemma {:induction false} FateMet(ws: seq<World>, ops: seq<Op>, n: nat, t: int, fate: Fate) returns (j: nat)
    requires Run(ws, ops) && n <= |ops| && 0 <= t < |ws[n].waits| && ws[n].waits[t] == Limited(fate)
    ensures j < n && Meets(ws[j], ops[j], t, fate)
    ensures forall k :: j < k <= n ==> t < |ws[k].waits| && ws[k].waits[t] == Limited(fate)
  {
    assert n > 0;
    assert StepAt(ws, ops, n - 1);
    if ws[n - 1].waits[t] == Limited(fate) && !Meets(ws[n - 1], ops[n - 1], t, fate) {
      j := FateMet(ws, ops, n - 1, t, fate);
    } else {
      j := n - 1;
    }
  }

  function Flags(ws: seq<int>, pool: seq<Tcb>): (r: seq<bool>)
    requires AllIn(ws, |pool|)
    ensures |r| == |ws| && forall i :: 0 <= i < |ws| ==> r[i] == Lapsed(pool[ws[i]])
  {
    seq(|ws|, i requires 0 <= i < |ws| => Lapsed(pool[ws[i]]))
  }

  /** How many marks stand in a row right before `i`, no further back than `k`. */
  function InARow(ls: seq<bool>, k: nat, i: nat): (r: nat)
    requires k <= i <= |ls|
    ensures r <= i - k
  {
    if i == k || !ls[i - 1] then 0 else 1 + InARow(ls, k, i - 1)
  }

  /** The sweep steps over every other waiter of a row of timed-out ones, unless the row
      begins at the head of the ring. */
  predicate Swept(ls: seq<bool>, i: nat)
    requires i < |ls|
  {
    ls[i] && (InARow(ls, 0, i) == i || InARow(ls, 0, i) % 2 == 0)
  }

  lemma {:induction false} InARowAll(ls: seq<bool>, k: nat, i: nat)
    requires k <= i <= |ls|
    ensures InARow(ls, k, i) == i - k <==> forall j :: k <= j < i ==> ls[j]
  {
    if i > k {
      InARowAll(ls, k, i - 1);
    }
  }

  /** Taking out mark `k` and stepping over the next keeps the parity of what stands in a row. */
  lemma {:induction false} InARowStep(ls: seq<bool>, k: nat, i: nat)
    requires k < |ls| && ls[k] && k + 2 <= i <= |ls|
    ensures InARow(RemoveAt(ls, k), k + 1, i - 1) % 2 == InARow(ls, k, i) % 2
  {
    assert RemoveAt(ls, k)[i - 2] == ls[i - 1];
    if i > k + 2 && ls[i - 1] {
      InARowStep(ls, k, i - 1);
    }
  }

  lemma {:induction false} InARowTail(ls: seq<bool>, k: nat, i: nat)
    requires k + 1 <= i <= |ls| && !ls[k]
    ensures InARow(ls, k, i) == InARow(ls, k + 1, i)
  {
    if i > k + 1 {
      InARowTail(ls, k, i - 1);
    }
  }

  lemma {:induction false} InARowHead(ls: seq<bool>, i: nat)
    requires 0 < i <= |ls| && ls[0]
    ensures InARow(RemoveAt(ls, 0), 0, i - 1) == if InARow(ls, 0, i) == i then i - 1 else InARow(ls, 0, i)
    ensures InARow(ls, 0, i) != i - 1
  {
    if i > 1 {
      assert RemoveAt(ls, 0)[i - 2] == ls[i - 1];
      InARowHead(ls, i - 1);
    }
  }

  /** The sweep, on a ring and its marks alone. */
  function Cut(ws: seq<int>, ls: seq<bool>, k: nat): (r: seq<int>)
    requires |ws| == |ls| && k <= |ws|
    ensures forall x :: x in r ==> x in ws
    decreases |ws| - k
  {
    if k == |ws| then ws
    else if !ls[k] then Cut(ws, ls, k + 1)
    else Cut(RemoveAt(ws, k), RemoveAt(ls, k), if k == 0 || k + 1 == |ws| then k else k + 1)
  }

  /** The marks say who has timed out. */
  ghost predicate Marked(ws: seq<int>, pool: seq<Tcb>, ls: seq<bool>) {
    && AllIn(ws, |pool|) && Distinct(ws) && |ls| == |ws|
    && forall i :: 0 <= i < |ws| ==> ls[i] == Lapsed(pool[ws[i]])
  }

  function Told(ws: seq<int>, pool: seq<Tcb>, k: nat): (r: seq<Tcb>)
    requires AllIn(ws, |pool|) && k < |ws|
    ensures |r| == |pool|
  {
    pool[ws[k] := Noted(pool[ws[k]])]
  }

  /** One round of the sweep: with what it goes on. */
  lemma SweepStep(ws: seq<int>, pool: seq<Tcb>, k: nat) returns (ws': seq<int>, pool': seq<Tcb>, k': nat)
    requires AllIn(ws, |pool|) && k < |ws|
    ensures AllIn(ws', |pool'|) && k' <= |ws'| <= |ws| && |ws'| - k' < |ws| - k && |pool'| == |pool|
    ensures Sweep(ws, pool, k) == Sweep(ws', pool', k')
    ensures if Lapsed(pool[ws[k]])
      then ws' == RemoveAt(ws, k) && pool' == Told(ws, pool, k) && k' == if k == 0 || k + 1 == |ws| then k else k + 1
      else ws' == ws && pool' == pool && k' == k + 1
  {
    RemoveAtIn(ws, k, |pool|);
    var o := SweepOne(ws, pool, k);
    ws', pool' := o.0, o.1;
    k' := if o.2 == |o.0| then |o.0| else o.2 + 1;
  }

  /** With distinct waiters the marks of the others do not change when one is told. */
  lemma MarkedStill(ws: seq<int>, pool: seq<Tcb>, ls: seq<bool>, k: nat)
    requires Marked(ws, pool, ls) && k < |ws|
    ensures Marked(RemoveAt(ws, k), pool, RemoveAt(ls, k)) && Marked(RemoveAt(ws, k), Told(ws, pool, k), RemoveAt(ls, k))
  {
    RemoveAtDistinct(ws, k);
    RemoveAtIn(ws, k, |pool|);
    var r := RemoveAt(ws, k);
    forall i | 0 <= i < |r| ensures RemoveAt(ls, k)[i] == Lapsed(pool[r[i]]) && r[i] != ws[k] {
      assert r[i] == ws[if i < k then i else i + 1];
    }
  }

  lemma {:induction false} SweepIsCut(ws: seq<int>, pool: seq<Tcb>, ls: seq<bool>, k: nat)
    requires Marked(ws, pool, ls) && k <= |ws|
    ensures Sweep(ws, pool, k).0 == Cut(ws, ls, k)
    decreases |ws| - k
  {
    if k < |ws| {
      MarkedStill(ws, pool, ls, k);
      var ws', pool', k' := SweepStep(ws, pool, k);
      SweepIsCut(ws', pool', if ls[k] then RemoveAt(ls, k) else ls, k');
    }
  }

  /** The sweep past the head: of each row of timed-out waiters the first, third, and so on
      go. */
  lemma {:induction false} CutPast(ws: seq<int>, ls: seq<bool>, k: nat, i: nat)
    requires |ws| == |ls| && Distinct(ws) && 0 < k <= |ws| && i < |ws|
    ensures ws[i] in Cut(ws, ls, k) <==> i < k || !ls[i] || InARow(ls, k, i) % 2 == 1
    decreases |ws| - k
  {
    if k < |ws| && ls[k] {
      RemoveAtDistinct(ws, k);
      if i != k {
        var i' := if i < k then i else i - 1;
        assert RemoveAt(ws, k)[i'] == ws[i] && RemoveAt(ls, k)[i'] == ls[i];
        CutPast(RemoveAt(ws, k), RemoveAt(ls, k), if k + 1 == |ws| then k else k + 1, i');
        if i >= k + 2 {
          InARowStep(ls, k, i);
        }
      }
    } else if k < |ws| {
      CutPast(ws, ls, k + 1, i);
      if i > k {
        InARowTail(ls, k, i);
      }
    }
  }

  /** Exactly what the sweep takes. */
  lemma {:induction false} CutIff(ws: seq<int>, ls: seq<bool>, i: nat)
    requires |ws| == |ls| && Distinct(ws) && i < |ws|
    ensures ws[i] !in Cut(ws, ls, 0) <==> Swept(ls, i)
    decreases |ws|
  {
    if ls[0] {
      RemoveAtDistinct(ws, 0);
      assert Cut(ws, ls, 0) == Cut(RemoveAt(ws, 0), RemoveAt(ls, 0), 0);
      assert ws[0] !in RemoveAt(ws, 0);
      if i > 0 {
        assert RemoveAt(ws, 0)[i - 1] == ws[i] && RemoveAt(ls, 0)[i - 1] == ls[i];
        CutIff(RemoveAt(ws, 0), RemoveAt(ls, 0), i - 1);
        InARowHead(ls, i);
      }
    } else {
      CutPast(ws, ls, 1, i);
      if i > 0 {
        InARowTail(ls, 0, i);
      }
    }
  }

  lemma AsOften(ws: seq<int>, k: nat, u: int)
    requires k < |ws|
    ensures multiset(RemoveAt(ws, k))[u] == multiset(ws)[u] - if ws[k] == u then 1 else 0
  {
    RemoveAtMultiset(ws, k);
  }

  /** Nothing that matters to thread `u` happens in the sweep. */
  ghost predicate Spared(ws: seq<int>, pool: seq<Tcb>, r: (seq<int>, seq<Tcb>), u: int)
    requires 0 <= u < |pool| == |r.1|
  {
    multiset(r.0)[u] == multiset(ws)[u] && r.1[u] == pool[u]
  }

  lemma StepSpares(ws: seq<int>, pool: seq<Tcb>, k: nat, u: int)
    requires AllIn(ws, |pool|) && k < |ws| && 0 <= u < |pool| && ws[k] != u
    ensures Spared(ws, pool, (RemoveAt(ws, k), Told(ws, pool, k)), u)
  {
    AsOften(ws, k, u);
  }

  /** However many waiters have timed out: the sweep takes no other, tells nobody else
      anything, and leaves each of them in the ring as often as it was. */
  lemma {:induction false} SweepSpares(ws: seq<int>, pool: seq<Tcb>, k: nat, u: int)
    requires AllIn(ws, |pool|) && k <= |ws| && 0 <= u < |pool| && !Lapsed(pool[u])
    ensures Spared(ws, pool, Sweep(ws, pool, k), u)
    decreases |ws| - k
  {
    if k < |ws| {
      if Lapsed(pool[ws[k]]) {
        StepSpares(ws, pool, k, u);
      }
      var ws', pool', k' := SweepStep(ws, pool, k);
      SweepSpares(ws', pool', k', u);
    }
  }

  /** However many waiters have timed out: a thread that gives up its wait leaves everybody
      who has not timed out where he was exactly if the slot it remembers holds a thread that
      has. */
  lemma TimeoutSparesOthersIff(s: Sem, pool: seq<Tcb>, d: nat)
    requires SemOk(s) && AllIn(s.waiters, |pool|) && s.token < 0
    ensures (forall u :: 0 <= u < |pool| && !(pool[u].state == READY && pool[u].wakeupEvent == E_TIMER) ==>
               multiset(GivenUp(s, pool, d).0.waiters)[u] == multiset(s.waiters)[u])
            <==> Lapsed(pool[s.waiters[Victim(d, |s.waiters|)]])
    ensures forall u :: 0 <= u < |pool| && !Lapsed(pool[u]) ==> GivenUp(s, pool, d).1[u] == pool[u]
  {
    var v := Victim(d, |s.waiters|);
    var ws, x := RemoveAt(s.waiters, v), s.waiters[v];
    var r := GivenUp(s, pool, d).0.waiters;
    RemoveAtIn(s.waiters, v, |pool|);
    forall u | 0 <= u < |pool| && !Lapsed(pool[u])
      ensures multiset(r)[u] == multiset(s.waiters)[u] - if u == x then 1 else 0
      ensures GivenUp(s, pool, d).1[u] == pool[u]
    {
      SweepSpares(ws, pool, 0, u);
      AsOften(s.waiters, v, u);
    }
  }

  lemma CutRestIff(waiters: seq<int>, ls: seq<bool>, v: nat, i: nat)
    requires |ls| == |waiters| && Distinct(waiters) && i < |waiters| && v < |waiters|
    ensures waiters[i] !in Cut(RemoveAt(waiters, v), RemoveAt(ls, v), 0) <==>
      i == v || Swept(RemoveAt(ls, v), if i < v then i else i - 1)
  {
    var ws := RemoveAt(waiters, v);
    RemoveAtDistinct(waiters, v);
    if i != v {
      var j := if i < v then i else i - 1;
      assert ws[j] == waiters[i];
      CutIff(ws, RemoveAt(ls, v), j);
    }
  }

  lemma RestIff(waiters: seq<int>, pool: seq<Tcb>, v: nat, i: nat)
    requires AllIn(waiters, |pool|) && Distinct(waiters) && i < |waiters| && v < |waiters|
    ensures AllIn(RemoveAt(waiters, v), |pool|)
    ensures waiters[i] !in Sweep(RemoveAt(waiters, v), pool, 0).0 <==>
      i == v || Swept(RemoveAt(Flags(waiters, pool), v), if i < v then i else i - 1)
  {
    var ls := Flags(waiters, pool);
    MarkedStill(waiters, pool, ls, v);
    SweepIsCut(RemoveAt(waiters, v), pool, RemoveAt(ls, v), 0);
    CutRestIff(waiters, ls, v, i);
  }

  /** However many waiters have timed out: the thread at place `i` that gives up its wait
      leaves the ring exactly if the slot it remembers is its own, or the sweep comes to it. */
  lemma TimeoutLeavesIff(s: Sem, pool: seq<Tcb>, i: nat, d: nat)
    requires SemOk(s) && AllIn(s.waiters, |pool|) && Distinct(s.waiters) && i < |s.waiters|
    requires Lapsed(pool[s.waiters[i]])
    ensures var v := Victim(d, |s.waiters|);
      s.waiters[i] !in Resume(s, pool, s.waiters[i], d).0.waiters <==>
        i == v || Swept(RemoveAt(Flags(s.waiters, pool), v), if i < v then i else i - 1)
  {
    RestIff(s.waiters, pool, Victim(d, |s.waiters|), i);
  }
}
