/** Counting semaphores in memory: the token, the ring of blocked threads with its cursors, and
    the lock and unlock stages that every semaphore and queue operation goes through. */
module Itc {
  import opened Tcbs
  import opened Ring
  import opened Sems

  /** `itc_t` without the message buffers. */
  class Semaphore {
    const levels: nat            // TK_MAX_PRIO_LEVELS
    const blocked: array<int>    // blocked_procs, TK_MAX_BLOCKED_ON_Q slots
    var token: int
    var prior: bool              // flags & PRIOR
    var kind: Kind
    var inIdx: nat
    var outIdx: nat
    ghost var waiters: seq<int>  // the ring, read from the out-cursor to the in-cursor

    /** Cursors, slots and token agree and the ring is not overfull. */
    ghost predicate Valid()
      reads this, blocked
    {
      && 0 < blocked.Length < UINT_MAX
      && Holds(blocked[..], outIdx, inIdx, waiters)
      && SemOk(Model())
    }

    ghost function Model(): Sem
      reads this
    {
      Sem(token, waiters, prior, blocked.Length)
    }

    /** Every thread in the ring is in the pool and has a priority the kernel knows. */
    ghost predicate Serves(pool: array<Tcb>)
      reads this, blocked, pool
    {
      && Valid() && AllIn(waiters, pool.Length)
      && forall k :: 0 <= k < |waiters| ==> pool[waiters[k]].prio < levels
    }

    /** sm_create, once a slot and memory for the object have been found. */
    constructor (maxBlocked: nat, levels: nat, count: nat, prior: bool, kind: Kind)
      requires 0 < maxBlocked < UINT_MAX
      ensures Valid() && fresh(blocked)
      ensures Model() == Sem(count, [], prior, maxBlocked)
      ensures this.kind == kind && this.levels == levels && inIdx == outIdx == 0
    {
      this.levels := levels;
      blocked := new int[maxBlocked](_ => NIL);
      token := count;
      this.prior := prior;
      this.kind := kind;
      inIdx, outIdx := 0, 0;
      waiters := [];
    }

    /** What sm_create leaves behind when there is memory for the object but not for its ring:
        no ring, and anything in the other fields. */
    constructor HalfMade(levels: nat)
      ensures fresh(blocked) && blocked.Length == 0 && !Valid()
    {
      this.levels := levels;
      blocked := new int[0];
      token, prior, kind := *, *, *;
      inIdx, outIdx, waiters := *, *, *;
    }

    /** The copy loop of _itc_removeBlocked: every slot from `slot` up to the in-cursor
        takes over the value of the next slot. */
    method ShiftBack(slot: nat)
      requires slot < blocked.Length && inIdx < blocked.Length
      modifies blocked
      ensures Shifted(old(blocked[..]), blocked[..], slot, inIdx)
    {
      var n := blocked.Length;
      var idx: nat := slot;
      var cp: nat := Inc(idx, n);
      while idx != inIdx
        invariant idx < n && cp == Inc(idx, n)
        invariant Len(slot, idx, n) <= Len(slot, inIdx, n)
        invariant Shifted(old(blocked[..]), blocked[..], slot, idx)
        decreases Len(idx, inIdx, n)
      {
        ShiftStep(old(blocked[..]), blocked[..], slot, idx, inIdx);
        blocked[idx] := blocked[cp];
        cp := Inc(cp, n);
        idx := Inc(idx, n);
      }
    }

    /** What both kinds of unlock do to the thread they pick. */
    method Release(pool: array<Tcb>, him: int)
      requires 0 <= him < pool.Length
      modifies pool
      ensures pool[..] == old(pool[..])[him := Released(old(pool[him]))]
      ensures var x := old(pool[him]);
        pool[him] == x.(state := x.state.(queue := false, sleep := false, term := false), wakeupEvent := E_ITC)
    {
      pool[him] := pool[him].(state := ClearQST(pool[him].state));
      pool[him] := pool[him].(wakeupEvent := E_ITC);
    }

    /** _itc_removeBlocked, for every slot of the ring, occupied or not. */
    method RemoveBlocked(slot: nat)
      requires Valid() && token < 0 && slot < blocked.Length
      modifies this`token, this`inIdx, this`outIdx, this`waiters, blocked
      ensures Valid() && token == old(token) + 1
      ensures waiters == RemoveAt(old(waiters), Victim(old(Len(outIdx, slot, blocked.Length)), |old(waiters)|))
      ensures var d := old(Len(outIdx, slot, blocked.Length));
        d < |old(waiters)| ==> old(waiters)[d] == old(blocked[slot]) && waiters == RemoveAt(old(waiters), d)
      ensures slot == old(outIdx) ==> outIdx == Inc(old(outIdx), blocked.Length) && inIdx == old(inIdx)
      ensures slot != old(outIdx) ==> outIdx == old(outIdx) && inIdx == Dec(old(inIdx), blocked.Length)
    {
      var n := blocked.Length;
      ghost var a := blocked[..];
      ghost var v := Victim(Len(outIdx, slot, n), |waiters|);
      var last := Dec(inIdx, n);

      if outIdx == slot {
        blocked[slot] := NIL;
        PopHead(a, blocked[..], outIdx, inIdx, waiters);
        outIdx := Inc(outIdx, n);
      } else if last == slot {
        blocked[slot] := NIL;
        DropLast(a, blocked[..], outIdx, inIdx, waiters);
        inIdx := Dec(inIdx, n);
      } else {
        ShiftBack(slot);
        ShiftedOut(a, blocked[..], outIdx, inIdx, slot, waiters);
        inIdx := Dec(inIdx, n);
      }
      token := token + 1;
      waiters := RemoveAt(waiters, v);
    }

    /** lock_stage up to the point where the caller yields. */
    method LockEnter(pool: array<Tcb>, self: int, timeout: nat, now: int) returns (r: LockOutcome)
      requires Valid() && 0 <= self < pool.Length
      modifies this`token, this`inIdx, this`waiters, blocked, pool
      ensures Valid()
      ensures Model() == old(Lock(Model(), pool[..], self, timeout != 0, now + timeout)).0
      ensures pool[..] == old(Lock(Model(), pool[..], self, timeout != 0, now + timeout)).1
      ensures var l := old(Lock(Model(), pool[..], self, timeout != 0, now + timeout));
        if l.2 then r == Blocked(inIdx) && blocked[Dec(inIdx, blocked.Length)] == self
        else r == Returned(l.3)
      ensures old(token) > 0 ==> r == Returned(ERR_OK) && token == old(token) - 1 && waiters == old(waiters)
      ensures r.Blocked? <==> old(token) <= 0 && -old(token) < blocked.Length - 1
      ensures old(token) <= 0 && r.Returned? ==>
        r == Returned(ERR_BLOCKLIMIT) && token == old(token) && waiters == old(waiters)
      ensures r.Returned? ==> pool[..] == old(pool[..])
      ensures r.Blocked? ==>
        && token == old(token) - 1 && waiters == old(waiters) + [self]
        && (forall i :: 0 <= i < pool.Length && i != self ==> pool[i] == old(pool[i]))
        && var x := old(pool[self]);
           pool[self] == if timeout == 0 then x.(state := x.state.(queue := true), wakeupEvent := E_NONE)
                         else x.(state := x.state.(queue := true, sleep := true), wakeuptime := now + timeout)
    {
      if token > 0 {
        token := token - 1;
        return Returned(ERR_OK);
      }
      if -token < blocked.Length - 1 {
        token := token - 1;
      } else {
        return Returned(ERR_BLOCKLIMIT);
      }
      Append(blocked[..], outIdx, inIdx, waiters, self);
      blocked[inIdx] := self;
      waiters := waiters + [self];
      inIdx := Inc(inIdx, blocked.Length);
      if timeout == 0 {
        pool[self] := pool[self].(state := pool[self].state.(queue := true), wakeupEvent := E_NONE);
      } else {
        pool[self] := pool[self].(state := pool[self].state.(queue := true, sleep := true),
                                  wakeuptime := now + timeout);
      }
      r := Blocked(inIdx);
    }

    /** Removing the waiter at step `k`: a removal at the head moves the out-cursor past
        the slot, any other leaves the slot at step `k` of the shorter ring. */
    method RemoveSwept(m: nat, ghost k: nat)
      requires Valid() && token < 0 && k < |waiters| && m == Slot(outIdx, k, blocked.Length)
      modifies this`token, this`inIdx, this`outIdx, this`waiters, blocked
      ensures Valid() && token == old(token) + 1
      ensures waiters == RemoveAt(old(waiters), k)
      ensures k == 0 ==> outIdx == Inc(m, blocked.Length) && m != inIdx
      ensures k != 0 ==> m == Slot(outIdx, k, blocked.Length) && (m == inIdx <==> k == |waiters|)
    {
      Walk(outIdx, inIdx, k, blocked.Length);
      RemoveBlocked(m);
      if k > 0 { Walk(outIdx, inIdx, k, blocked.Length); }
    }

    /** The body of the sweep, up to the stepping of the cursor. */
    method SweepSlot(pool: array<Tcb>, m: nat, ghost k: nat) returns (ghost k': int)
      requires Valid() && AllIn(waiters, pool.Length) && token < 0
      requires k < |waiters| && m == Slot(outIdx, k, blocked.Length)
      modifies this`token, this`inIdx, this`outIdx, this`waiters, blocked, pool
      ensures Valid() && token <= 0
      ensures (waiters, pool[..], k') == old(SweepOne(waiters, pool[..], k))
      ensures k' == -1 ==> outIdx == Inc(m, blocked.Length)
      ensures k' >= 0 ==> m == Slot(outIdx, k', blocked.Length)
      ensures m == inIdx <==> k' == |waiters|
    {
      Walk(outIdx, inIdx, k, blocked.Length);
      var him := blocked[m];
      assert him == waiters[k];
      k' := k;
      if pool[him].state == READY && pool[him].wakeupEvent == E_TIMER {
        pool[him] := pool[him].(wakeupEvent := E_ITC2);
        RemoveSwept(m, k);
        k' := if k == 0 then -1 else k;
      }
    }

    /** One round of the do-loop of lock_stage; `more` is the loop's condition. */
    method SweepRound(pool: array<Tcb>, m: nat, ghost k: nat) returns (m': nat, more: bool, ghost k': int)
      requires Valid() && AllIn(waiters, pool.Length) && token < 0
      requires k < |waiters| && m == Slot(outIdx, k, blocked.Length)
      modifies this`token, this`inIdx, this`outIdx, this`waiters, blocked, pool
      ensures Valid() && token <= 0
      ensures (waiters, pool[..], k' - 1) == old(SweepOne(waiters, pool[..], k))
      ensures more <==> k' < |waiters|
      ensures more ==> token < 0 && m' == Slot(outIdx, k', blocked.Length)
    {
      m' := m;
      k' := SweepSlot(pool, m, k);
      if m == inIdx {
        return m', false, k' + 1;
      }
      if k' >= 0 { Walk(outIdx, inIdx, k', blocked.Length); }
      m' := Inc(m, blocked.Length);
      k' := k' + 1;
      Walk(outIdx, inIdx, k', blocked.Length);
      more := token < 0 && m' != inIdx;
    }

    /** The sweep over the other waiters that timed out. */
    method SweepTimedOut(pool: array<Tcb>)
      requires Valid() && AllIn(waiters, pool.Length) && token < 0
      modifies this`token, this`inIdx, this`outIdx, this`waiters, blocked, pool
      ensures Valid() && token <= 0
      ensures waiters == old(Sweep(waiters, pool[..], 0)).0
      ensures pool[..] == old(Sweep(waiters, pool[..], 0)).1
    {
      ghost var answer := Sweep(waiters, pool[..], 0);
      ghost var k := 0;
      var m: nat := outIdx;
      var more := true;
      while more
        invariant Valid() && token <= 0 && AllIn(waiters, pool.Length)
        invariant more ==> token < 0 && 0 <= k < |waiters| && m == Slot(outIdx, k, blocked.Length)
        invariant answer == if more then Sweep(waiters, pool[..], k) else (waiters, pool[..])
        decreases more, |waiters| - k
      {
        m, more, k := SweepRound(pool, m, k);
      }
    }

    method GiveUp(pool: array<Tcb>, m: nat)
      requires Valid() && AllIn(waiters, pool.Length) && token < 0 && m < blocked.Length
      modifies this`token, this`inIdx, this`outIdx, this`waiters, blocked, pool
      ensures Valid()
      ensures var g := GivenUp(old(Model()), old(pool[..]), old(Len(outIdx, m, blocked.Length)));
        Model() == g.0 && pool[..] == g.1
    {
      RemoveBlocked(m);
      if token < 0 {
        SweepTimedOut(pool);
      }
    }

    /** The rest of lock_stage for a wait with a time limit, once the thread runs again. */
    method LockResume(pool: array<Tcb>, self: int, mark: nat) returns (rc: Code)
      requires Valid() && AllIn(waiters, pool.Length) && 0 <= self < pool.Length
      requires mark < blocked.Length
      modifies this`token, this`inIdx, this`outIdx, this`waiters, blocked, pool
      ensures Valid()
      ensures var d := old(Len(outIdx, Dec(mark, blocked.Length), blocked.Length));
        var r := Resume(old(Model()), old(pool[..]), self, d);
        Model() == r.0 && pool[..] == r.1 && rc == r.2
      ensures var e := old(pool[self].wakeupEvent);
        && rc == (if e == E_TIMER || e == E_ITC2 then ERR_TIMEOUT else ERR_OK)
        && (e != E_TIMER ==> Model() == old(Model()) && pool[..] == old(pool[..]))
    {
      if pool[self].wakeupEvent == E_ITC2 {
        return ERR_TIMEOUT;
      }
      if pool[self].wakeupEvent != E_TIMER {
        return ERR_OK;
      }
      var m: nat := Dec(mark, blocked.Length);
      if token >= 0 {
        return ERR_TIMEOUT;
      }
      GiveUp(pool, m);
      rc := ERR_TIMEOUT;
    }

    /** The search of a PRIOR unlock: the slot of the waiter to release. */
    method FindByPriority(pool: array<Tcb>) returns (tIdx: nat)
      requires Serves(pool) && token < 0
      ensures var j := FirstMin(waiters, pool[..]);
        tIdx == Slot(outIdx, j, blocked.Length) && blocked[tIdx] == waiters[j]
    {
      var n := blocked.Length;
      var tPrio := levels + 2;
      tIdx := outIdx;
      var i: nat := outIdx;
      ghost var k, j := 0, 0;
      while i != inIdx
        invariant k <= |waiters| && i == Slot(outIdx, k, n) && tIdx < n
        invariant i == inIdx <==> k == |waiters|
        invariant k == 0 ==> tPrio == levels + 2
        invariant k > 0 ==>
          && 0 <= j < k && tIdx == Slot(outIdx, j, n)
          && tPrio == pool[waiters[j]].prio
          && (forall x :: 0 <= x < k ==> tPrio <= pool[waiters[x]].prio)
          && (forall x :: 0 <= x < j ==> tPrio < pool[waiters[x]].prio)
        decreases |waiters| - k
      {
        Walk(outIdx, inIdx, k, n);
        assert blocked[i] == waiters[k];
        if pool[blocked[i]].prio < tPrio {
          tPrio := pool[blocked[i]].prio;
          tIdx := i;
          j := k;
        }
        i := Inc(i, n);
        k := k + 1;
        Walk(outIdx, inIdx, k, n);
      }
      assert tPrio != levels + 2;
      FirstMinUnique(waiters, pool[..], j);
    }

    /** The do-loop of a FIFO unlock: takes waiters off the ring until one still queues. */
    method PopFifo(pool: array<Tcb>) returns (him: int)
      requires Valid() && AllIn(waiters, pool.Length) && token < 0
      modifies this`token, this`outIdx, this`waiters
      ensures Valid()
      ensures var k := FifoPick(old(waiters), pool[..]);
        && him == old(waiters)[k]
        && waiters == old(waiters)[k + 1..]
        && token == old(token) + k + 1
    {
      ghost var ws := waiters;
      var again := true;
      him := NIL;
      ghost var k := 0;
      while again
        invariant Valid() && 0 <= k <= |ws| && token == old(token) + k
        invariant waiters == ws[k..]
        invariant again ==> k < |ws| && forall i :: 0 <= i < k ==> !pool[ws[i]].state.queue
        invariant !again ==> k > 0 && him == ws[k - 1] && IsFifoPick(ws, pool[..], k - 1)
        decreases again, |ws| - k
      {
        him := blocked[outIdx];
        assert him == waiters[0];
        PopHead(blocked[..], blocked[..], outIdx, inIdx, waiters);
        outIdx := Inc(outIdx, blocked.Length);
        token := token + 1;
        waiters := waiters[1..];
        k := k + 1;
        again := !pool[him].state.queue && token < 0;
      }
      FifoPickUnique(ws, pool[..], k - 1);
    }

    method UnlockPrior(pool: array<Tcb>)
      requires Serves(pool) && token < 0 && prior
      modifies this`token, this`inIdx, this`outIdx, this`waiters, blocked, pool
      ensures Valid()
      ensures Model() == old(Unlock(Model(), pool[..])).0
      ensures pool[..] == old(Unlock(Model(), pool[..])).1
      ensures outIdx == if old(FirstMin(waiters, pool[..])) == 0 then Inc(old(outIdx), blocked.Length) else old(outIdx)
    {
      assert inIdx != outIdx;  // so the early return for an empty ring is never taken
      var tIdx := FindByPriority(pool);
      var him := blocked[tIdx];
      Release(pool, him);
      Walk(outIdx, inIdx, FirstMin(waiters, old(pool[..])), blocked.Length);
      RemoveBlocked(tIdx);
    }

    method UnlockFifo(pool: array<Tcb>)
      requires Valid() && AllIn(waiters, pool.Length) && token < 0 && !prior
      modifies this`token, this`outIdx, this`waiters, pool
      ensures Valid()
      ensures Model() == old(Unlock(Model(), pool[..])).0
      ensures pool[..] == old(Unlock(Model(), pool[..])).1
    {
      var him := PopFifo(pool);
      Release(pool, him);
    }

    /** unlock_stage up to the point where the caller yields; it always returns ERR_OK. */
    method UnlockStage(pool: array<Tcb>)
      requires Serves(pool)
      modifies this`token, this`inIdx, this`outIdx, this`waiters, blocked, pool
      ensures Valid()
      ensures Model() == old(Unlock(Model(), pool[..])).0
      ensures pool[..] == old(Unlock(Model(), pool[..])).1
      ensures old(token) >= 0 ==> token == old(token) + 1 && waiters == [] && pool[..] == old(pool[..])
      ensures old(token) < 0 && prior ==>
        outIdx == if old(FirstMin(waiters, pool[..])) == 0 then Inc(old(outIdx), blocked.Length) else old(outIdx)
    {
      if token >= 0 {
        token := token + 1;
      } else if prior {
        UnlockPrior(pool);
      } else {
        UnlockFifo(pool);
      }
    }

    /** _itc_proveConcistency, the kernel's own self-check. */
    method ProveConsistency(pool: array<Tcb>) returns (ok: bool)
      requires Valid() && AllIn(waiters, pool.Length)
      ensures ok <==> token >= 0 || forall k :: 0 <= k < |waiters| ==>
        var s := pool[waiters[k]].state; s.queue || s == READY
    {
      if token > 0 {
        return true;
      }
      var n := blocked.Length;
      var count: nat, i: nat := 0, outIdx;
      ghost var k := 0;
      while i != inIdx
        invariant k <= |waiters| && i == Slot(outIdx, k, n)
        invariant i == inIdx <==> k == |waiters|
        invariant 0 <= count <= k
        invariant count == k <==> forall j :: 0 <= j < k ==>
          var s := pool[waiters[j]].state; s.queue || s == READY
        decreases |waiters| - k
      {
        Walk(outIdx, inIdx, k, n);
        assert blocked[i] == waiters[k];
        if pool[blocked[i]].state.queue || pool[blocked[i]].state == READY {
          count := count + 1;
        }
        i := Inc(i, n);
        k := k + 1;
        Walk(outIdx, inIdx, k, n);
      }
      ok := count == if token < 0 then -token else token;
    }
  }

  /** `b` is `a` with every slot from `slot` up to `idx` taken over from the next one. */
  ghost predicate Shifted(a: seq<int>, b: seq<int>, slot: nat, idx: nat) {
    && |a| == |b| && slot < |a| && idx < |a|
    && forall s :: 0 <= s < |a| ==>
         b[s] == if Len(slot, s, |a|) < Len(slot, idx, |a|) then a[Inc(s, |a|)] else a[s]
  }

  lemma ShiftStep(a: seq<int>, b: seq<int>, slot: nat, idx: nat, inn: nat)
    requires Shifted(a, b, slot, idx) && inn < |a|
    requires Len(slot, idx, |a|) < Len(slot, inn, |a|)
    ensures Len(slot, Inc(idx, |a|), |a|) == Len(slot, idx, |a|) + 1
    ensures Shifted(a, b[idx := b[Inc(idx, |a|)]], slot, Inc(idx, |a|))
  {
  }

  /** After shifting every slot from `slot` up to the in-cursor back by one, the ring has
      lost exactly the victim. */
  lemma ShiftedOut(a: seq<int>, b: seq<int>, out: nat, inn: nat, slot: nat, w: seq<int>)
    requires Holds(a, out, inn, w) && |a| == |b| && |a| < UINT_MAX
    requires slot < |a| && out != inn && slot != out && slot != Dec(inn, |a|)
    requires Shifted(a, b, slot, inn)
    ensures Holds(b, out, Dec(inn, |a|), RemoveAt(w, Victim(Len(out, slot, |a|), |w|)))
  {
    var n := |a|;
    var v := Victim(Len(out, slot, n), |w|);
    forall k | 0 <= k < |w| - 1
      ensures RemoveAt(w, v)[k] == b[Slot(out, k, n)]
    {
      var s := Slot(out, k, n);
      assert Inc(s, n) == Slot(out, k + 1, n);
      assert Len(slot, s, n) < Len(slot, inn, n) <==> k >= v;
    }
  }
}
