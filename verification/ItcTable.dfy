/** The table of semaphores and queues, and the calls that name one by its number. */
module ItcTable {
  import opened Tcbs
  import opened Ring
  import opened Itc
  import opened Sems

  class Table {
    const itcs: array<Semaphore?>
    const maxBlocked: nat
    const levels: nat
    var itcIdx: nat

    ghost function Objects(): set<object>
      reads this, itcs
    {
      (set i | 0 <= i < itcs.Length && itcs[i] != null :: itcs[i] as object)
      + (set i | 0 <= i < itcs.Length && itcs[i] != null :: itcs[i].blocked as object)
    }

    /** Every semaphore is in order, and no two slots share anything. */
    ghost predicate Valid()
      reads this, itcs, Objects()
    {
      && itcIdx < itcs.Length && 0 < maxBlocked < UINT_MAX
      && (forall i :: 0 <= i < itcs.Length && itcs[i] != null ==> itcs[i].Valid())
      && (forall i, j :: 0 <= i < j < itcs.Length && itcs[i] != null && itcs[j] != null ==>
            itcs[i] != itcs[j] && itcs[i].blocked != itcs[j].blocked)
    }

    /** The other semaphores are as they were. */
    twostate predicate OthersKept(q: nat)
      reads this, itcs, Objects()
    {
      forall i :: 0 <= i < itcs.Length && i != q ==>
        itcs[i] == old(itcs[i]) && (itcs[i] != null ==> itcs[i].Model() == old(itcs[i].Model()))
    }

    /** tk_itc. */
    constructor (slots: nat, maxBlocked: nat, levels: nat)
      requires slots > 0 && 0 < maxBlocked < UINT_MAX
      ensures Valid() && fresh(itcs) && itcs.Length == slots && itcIdx == 0
      ensures forall i :: 0 <= i < slots ==> itcs[i] == null
    {
      itcs := new Semaphore?[slots](_ => null);
      this.maxBlocked := maxBlocked;
      this.levels := levels;
      itcIdx := 0;
    }

    /** _itc_findNextEmpySlot: the first empty slot from the last one used on, in circular
        order, and failure exactly if there is none. */
    method FindNextEmptySlot() returns (rc: Code)
      requires itcIdx < itcs.Length
      modifies `itcIdx
      ensures itcIdx < itcs.Length
      ensures rc == ERR_OBJFULL <==> forall i :: 0 <= i < itcs.Length ==> itcs[i] != null
      ensures rc == ERR_OBJFULL || rc == ERR_OK
      ensures rc == ERR_OK ==>
        itcs[itcIdx] == null &&
        forall k :: 0 <= k < Len(old(itcIdx), itcIdx, itcs.Length) ==> itcs[Slot(old(itcIdx), k, itcs.Length)] != null
      ensures rc == ERR_OBJFULL ==> itcIdx == old(itcIdx)
    {
      var seek := 0;
      ghost var n, from := itcs.Length, itcIdx;
      while itcs[itcIdx] != null && seek < itcs.Length
        invariant 0 <= seek <= n && itcIdx == if seek == n then from else Slot(from, seek, n)
        invariant forall k :: 0 <= k < seek ==> itcs[Slot(from, k, n)] != null
        decreases n - seek
      {
        itcIdx := Inc(itcIdx, itcs.Length);
        seek := seek + 1;
      }
      if seek == n {
        forall i | 0 <= i < n ensures itcs[i] != null {
          assert Slot(from, Len(from, i, n), n) == i;
        }
      }
      rc := if seek == itcs.Length then ERR_OBJFULL else ERR_OK;
    }

    ghost predicate Full()
      reads itcs
    {
      forall i :: 0 <= i < itcs.Length ==> itcs[i] != null
    }

    /** sm_create; `count` units are free at first.  `objectOk` and `ringOk` say whether there
        is memory for the object and for its ring.  Without the second the slot is taken by an
        object that is not in order, and nothing takes it back. */
    method SmCreate(count: nat, prior: bool, objectOk: bool, ringOk: bool) returns (rc: Code, qid: nat)
      requires Valid()
      modifies `itcIdx, itcs
      ensures rc == if old(Full()) then ERR_OBJFULL else if objectOk && ringOk then ERR_OK else ERR_NOMEM
      ensures Valid() <==> (rc == ERR_NOMEM ==> !objectOk)
      ensures rc == ERR_OBJFULL || !objectOk ==> itcs[..] == old(itcs[..])
      ensures rc != ERR_OBJFULL && objectOk ==>
        qid < itcs.Length && OthersKept(qid) && old(itcs[qid]) == null && itcs[qid] != null
      ensures rc == ERR_OK ==> itcs[qid].kind == SEM && itcs[qid].Model() == Sem(count, [], prior, maxBlocked)
      ensures rc == ERR_NOMEM && objectOk ==> itcs[qid].blocked.Length == 0
    {
      rc := FindNextEmptySlot();
      qid := itcIdx;
      if rc == ERR_OBJFULL {
        return;
      }
      if !objectOk {
        return ERR_NOMEM, qid;
      }
      if !ringOk {
        var h := new Semaphore.HalfMade(levels);
        itcs[itcIdx] := h;
        return ERR_NOMEM, qid;
      }
      var s := new Semaphore(maxBlocked, levels, count, prior, SEM);
      itcs[itcIdx] := s;
    }

    /** sm_delete. */
    method SmDelete(q: nat) returns (rc: Code)
      requires Valid() && q < itcs.Length
      modifies itcs
      ensures Valid() && rc == ERR_OK && itcs[q] == null && OthersKept(q)
    {
      itcs[q] := null;
      rc := ERR_OK;
    }

    /** sm_p up to the yield of the lock stage. */
    method SmP(q: nat, pool: array<Tcb>, self: int, nowait: bool, timeout: nat, now: int) returns (r: LockOutcome)
      requires Valid() && q < itcs.Length && 0 <= self < pool.Length
      modifies pool, itcs[q], if itcs[q] == null then {} else {itcs[q].blocked}
      ensures Valid() && OthersKept(q) && itcs[q] == old(itcs[q])
      ensures itcs[q] == null ==> r == Returned(ERR_OBJDEL)
      ensures itcs[q] != null && itcs[q].kind != SEM ==> r == Returned(ERR_OBJTYPE)
      ensures itcs[q] != null && itcs[q].kind == SEM && old(itcs[q].token) <= 0 && nowait ==>
        r == Returned(ERR_NOSEM)
      ensures itcs[q] == null || itcs[q].kind != SEM || (old(itcs[q].token) <= 0 && nowait) ==>
        pool[..] == old(pool[..]) && (itcs[q] != null ==> itcs[q].Model() == old(itcs[q].Model()))
      ensures itcs[q] != null && itcs[q].kind == SEM && !(old(itcs[q].token) <= 0 && nowait) ==>
        var l := old(Lock(itcs[q].Model(), pool[..], self, timeout != 0, now + timeout));
        && itcs[q].Model() == l.0 && pool[..] == l.1
        && (if l.2 then r.Blocked? else r == Returned(l.3))
    {
      if itcs[q] == null {
        return Returned(ERR_OBJDEL);
      }
      if itcs[q].kind != SEM {
        return Returned(ERR_OBJTYPE);
      }
      if itcs[q].token <= 0 && nowait {
        return Returned(ERR_NOSEM);
      }
      r := itcs[q].LockEnter(pool, self, timeout, now);
    }

    /** sm_v up to the yield of the unlock stage. */
    method SmV(q: nat, pool: array<Tcb>) returns (rc: Code)
      requires Valid() && q < itcs.Length && (itcs[q] != null ==> itcs[q].Serves(pool))
      modifies pool, itcs[q], if itcs[q] == null then {} else {itcs[q].blocked}
      ensures Valid() && OthersKept(q) && itcs[q] == old(itcs[q])
      ensures rc == if itcs[q] == null then ERR_OBJDEL else if itcs[q].kind != SEM then ERR_OBJTYPE else ERR_OK
      ensures rc != ERR_OK ==>
        pool[..] == old(pool[..]) && (itcs[q] != null ==> itcs[q].Model() == old(itcs[q].Model()))
      ensures rc == ERR_OK ==>
        var u := old(Unlock(itcs[q].Model(), pool[..]));
        itcs[q].Model() == u.0 && pool[..] == u.1
    {
      if itcs[q] == null {
        return ERR_OBJDEL;
      }
      if itcs[q].kind != SEM {
        return ERR_OBJTYPE;
      }
      UnlockAt(q, pool);
      rc := ERR_OK;
    }

    method UnlockAt(q: nat, pool: array<Tcb>)
      requires Valid() && q < itcs.Length && itcs[q] != null && itcs[q].Serves(pool)
      modifies pool, itcs[q], itcs[q].blocked
      ensures Valid() && OthersKept(q) && itcs[..] == old(itcs[..]) && itcs[q].kind == old(itcs[q].kind)
      ensures var u := old(Unlock(itcs[q].Model(), pool[..]));
        itcs[q].Model() == u.0 && pool[..] == u.1
    {
      itcs[q].UnlockStage(pool);
    }
  }
}
