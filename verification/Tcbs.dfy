/** Thread control blocks.

    The kernel keeps its threads in one fixed pool of structures and passes pointers into
    that pool around.  Here a pointer to a TCB is the index of the TCB in the pool, and a
    NULL pointer is NIL.  PROCSTATE is a set of four bits (implement_tk.h). */
module Tcbs {

  const NIL: int := -1

  /** PROCSTATE: the bits Z, Q, S and T. */
  datatype ProcState = Bits(zombi: bool, queue: bool, sleep: bool, term: bool)

  const READY := Bits(false, false, false, false)
  const ZOMBI := Bits(true, false, false, false)

  datatype WakeEvent = E_NONE | E_CHILDDEATH | E_TIMER | E_ITC | E_ITC2

  /** bOnId: what a thread is blocked on. */
  datatype BlockedOn = OnSched(tcb: int) | OnMutex(mutex: nat)

  /** `gid` is the parent's id or -1.  The slot in the schedule, `Idx`, is kept apart. */
  datatype Tcb = Tcb(
    thid: int, gid: int, noChilds: int, valid: bool,
    state: ProcState, bOn: BlockedOn, wakeuptime: int, wakeupEvent: WakeEvent,
    retval: int, prio: nat)

  function ClearQST(s: ProcState): ProcState {
    s.(queue := false, sleep := false, term := false)
  }

  /** What an unlock does to the thread it releases. */
  function Released(t: Tcb): Tcb {
    t.(state := ClearQST(t.state), wakeupEvent := E_ITC)
  }

  /** What the unlock of a POSIX mutex does to the thread it wakes. */
  function Woken(t: Tcb): Tcb {
    t.(bOn := OnSched(NIL), state := t.state.(queue := false), wakeupEvent := E_ITC)
  }

  /** A thread whose wait has run out and which has not been told so by another one. */
  predicate Lapsed(t: Tcb) {
    t.state == READY && t.wakeupEvent == E_TIMER
  }

  /** What another timed-out thread does to one that it finds timed out, too. */
  function Noted(t: Tcb): Tcb {
    t.(wakeupEvent := E_ITC2)
  }

  ghost predicate AllIn(ws: seq<int>, n: nat) {
    forall k :: 0 <= k < |ws| ==> 0 <= ws[k] < n
  }

  ghost predicate Distinct(ws: seq<int>) {
    forall j, k :: 0 <= j < k < |ws| ==> ws[j] != ws[k]
  }

  function RemoveAt<T>(s: seq<T>, k: nat): (r: seq<T>)
    requires k < |s|
    ensures |r| == |s| - 1
    ensures forall i :: 0 <= i < |r| ==> r[i] == if i < k then s[i] else s[i + 1]
  {
    s[..k] + s[k + 1..]
  }

  lemma RemoveAtIn(ws: seq<int>, k: nat, n: nat)
    requires k < |ws| && AllIn(ws, n)
    ensures AllIn(RemoveAt(ws, k), n)
  {
  }

  lemma AppendDistinct(ws: seq<int>, t: int)
    requires Distinct(ws) && t !in ws
    ensures Distinct(ws + [t])
  {
  }

  lemma RemoveAtDistinct(ws: seq<int>, k: nat)
    requires k < |ws| && Distinct(ws)
    ensures Distinct(RemoveAt(ws, k))
    ensures forall x :: x in RemoveAt(ws, k) <==> x in ws && x != ws[k]
  {
    forall x | x in ws && x != ws[k] ensures x in RemoveAt(ws, k) {
      var i :| 0 <= i < |ws| && ws[i] == x;
      assert RemoveAt(ws, k)[if i < k then i else i - 1] == x;
    }
  }

  /** `j` is the position of the waiter to serve next: no other waiter has a numerically
      lower priority, and every earlier waiter has a numerically higher one. */
  ghost predicate IsFirstMin(ws: seq<int>, pool: seq<Tcb>, j: nat)
    requires AllIn(ws, |pool|)
  {
    && j < |ws|
    && (forall k :: 0 <= k < |ws| ==> pool[ws[j]].prio <= pool[ws[k]].prio)
    && (forall k :: 0 <= k < j ==> pool[ws[j]].prio < pool[ws[k]].prio)
  }

  /** The position the priority searches of the kernel select. */
  function FirstMin(ws: seq<int>, pool: seq<Tcb>): (j: nat)
    requires |ws| > 0 && AllIn(ws, |pool|)
    ensures IsFirstMin(ws, pool, j)
  {
    if |ws| == 1 then 0
    else
      var i := FirstMin(ws[..|ws| - 1], pool);
      assert forall k :: 0 <= k < |ws| - 1 ==> ws[..|ws| - 1][k] == ws[k];
      if pool[ws[|ws| - 1]].prio < pool[ws[i]].prio then |ws| - 1 else i
  }

  lemma FirstMinUnique(ws: seq<int>, pool: seq<Tcb>, j: nat)
    requires |ws| > 0 && AllIn(ws, |pool|)
    requires IsFirstMin(ws, pool, j)
    ensures j == FirstMin(ws, pool)
  {
  }

  lemma RemoveAtMultiset<T>(s: seq<T>, k: nat)
    requires k < |s|
    ensures multiset(s) == multiset(RemoveAt(s, k)) + multiset{s[k]}
  {
    assert s == s[..k] + [s[k]] + s[k + 1..];
  }

  /** The same threads are valid, with the same ids and priorities. */
  ghost predicate Agree(a: seq<Tcb>, b: seq<Tcb>) {
    && |a| == |b|
    && forall i :: 0 <= i < |a| ==>
         b[i].valid == a[i].valid && b[i].thid == a[i].thid && b[i].prio == a[i].prio
  }
}
