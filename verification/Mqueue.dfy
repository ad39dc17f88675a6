/** POSIX message queues with priorities (IEEE Std 1003.1b-1993, sections 15.2.4 and 15.2.5):
    a ring of message slots that is sorted on every send. */
module Messages {
  import opened Sorting
  import opened Tcbs

  /** One more than the largest unsigned int. */
  const WRAP: nat := 0x1_0000_0000

  datatype Order = Order(time: int, prio: nat, inOrder: nat)

  /** A slot: which buffer holds the text, how much of it, and the sorting keys. */
  datatype Mess = Mess(buffer: nat, msgSz: nat, order: Order)

  /** A message as sender and receiver see it. */
  datatype Message = Message(order: Order, text: string)

  function CompOrder(o1: Order, o2: Order): int {
    if o1.prio > o2.prio then -1
    else if o1.prio < o2.prio then 1
    else if o1.time < o2.time then -1
    else if o1.time > o2.time then 1
    else if o1.inOrder < o2.inOrder then -1
    else if o1.inOrder > o2.inOrder then 1
    else 0
  }

  /** compMess. */
  function CompMess(e1: Mess, e2: Mess): int {
    CompOrder(e1.order, e2.order)
  }

  lemma CompMessIsPreorder()
    ensures TotalPreorder(CompMess)
  {
    assert Signed(CompMess);
    assert Transitive(CompMess);
  }

  ghost predicate Ascending(ms: seq<Message>) {
    forall i, j :: 0 <= i < j < |ms| ==> CompOrder(ms[i].order, ms[j].order) <= 0
  }

  /** The outcome of a send: the new message has joined, and everything is in order. */
  ghost predicate Joins(q: seq<Message>, m: Message, q': seq<Message>) {
    Ascending(q') && multiset(q') == multiset(q + [m])
  }

  // ----- rearranging

  /** The text a slot stands for. */
  function Text(m: Mess, bufs: seq<string>): string {
    if m.buffer < |bufs| && m.msgSz <= |bufs[m.buffer]| then bufs[m.buffer][..m.msgSz] else ""
  }

  function Show(m: Mess, bufs: seq<string>): Message {
    Message(m.order, Text(m, bufs))
  }

  function View(ps: seq<Mess>, bufs: seq<string>): (r: seq<Message>)
    ensures |r| == |ps|
    ensures forall k :: 0 <= k < |ps| ==> r[k] == Show(ps[k], bufs)
  {
    seq(|ps|, k requires 0 <= k < |ps| => Show(ps[k], bufs))
  }

  lemma ViewTakeOut(s: seq<Mess>, k: nat, bufs: seq<string>)
    requires 0 <= k < |s|
    ensures multiset(View(s, bufs)) == multiset(View(RemoveAt(s, k), bufs)) + multiset{Show(s[k], bufs)}
  {
    var v := View(s, bufs);
    RemoveAtMultiset(v, k);
    assert RemoveAt(v, k) == View(RemoveAt(s, k), bufs);
  }

  /** Taking the same element out of two rearrangements leaves rearrangements. */
  lemma DropCommon<T>(s: seq<T>, t: seq<T>) returns (k: nat)
    requires multiset(s) == multiset(t) && |s| > 0
    ensures k < |t| && t[k] == s[0]
    ensures multiset(RemoveAt(s, 0)) == multiset(RemoveAt(t, k))
  {
    assert s[0] in multiset(t);
    k :| 0 <= k < |t| && t[k] == s[0];
    RemoveAtMultiset(s, 0);
    RemoveAtMultiset(t, k);
    Cancel(multiset(RemoveAt(s, 0)), multiset(RemoveAt(t, k)), s[0]);
  }

  lemma Cancel<T>(a: multiset<T>, b: multiset<T>, x: T)
    requires a + multiset{x} == b + multiset{x}
    ensures a == b
  {
    assert a == a + multiset{x} - multiset{x};
    assert b == b + multiset{x} - multiset{x};
  }

  lemma FirstOut<T>(s: seq<T>)
    requires |s| > 0
    ensures multiset(s) == multiset(s[1..]) + multiset{s[0]}
  {
    assert s == [s[0]] + s[1..];
  }

  lemma PutFirst<T>(s: seq<T>, k: nat, rest: seq<T>)
    requires k < |s| && multiset(rest) == multiset(RemoveAt(s, k))
    ensures multiset([s[k]] + rest) == multiset(s)
  {
    RemoveAtMultiset(s, k);
  }

  /** Slots in another order show the same messages in another order. */
  lemma {:induction false} ViewRearranged(s: seq<Mess>, t: seq<Mess>, bufs: seq<string>)
    requires multiset(s) == multiset(t)
    ensures multiset(View(s, bufs)) == multiset(View(t, bufs))
    decreases |s|
  {
    SameSize(s, t);
    if |s| > 0 {
      var k := DropCommon(s, t);
      ViewRearranged(RemoveAt(s, 0), RemoveAt(t, k), bufs);
      ViewTakeOut(s, 0, bufs);
      ViewTakeOut(t, k, bufs);
    } else {
      assert View(s, bufs) == View(t, bufs);
    }
  }

  lemma SameSize<T>(s: seq<T>, t: seq<T>)
    requires multiset(s) == multiset(t)
    ensures |s| == |t|
  {
    assert |multiset(s)| == |s| && |multiset(t)| == |t|;
  }

  /** No two slots share a buffer. */
  ghost predicate OwnBuffers(s: seq<Mess>) {
    forall i, j :: 0 <= i < j < |s| ==> s[i].buffer != s[j].buffer
  }

  lemma {:induction false} OnceEach(s: seq<Mess>, x: Mess)
    requires OwnBuffers(s)
    ensures multiset(s)[x] <= 1
    decreases |s|
  {
    if |s| > 0 {
      var n := |s| - 1;
      OnceEach(s[..n], x);
      assert s == s[..n] + [s[n]];
      assert forall k :: 0 <= k < n ==> s[..n][k] != s[n];
      assert s[n] !in multiset(s[..n]);
    }
  }

  lemma OnceOnly<T>(t: seq<T>, i: nat, j: nat)
    requires i < j < |t| && multiset(t)[t[i]] <= 1
    ensures t[i] != t[j]
  {
    RemoveAtMultiset(t, i);
    assert RemoveAt(t, i)[j - 1] == t[j];
    assert t[j] in multiset(RemoveAt(t, i));
  }

  lemma Apart(s: seq<Mess>, x: Mess, y: Mess)
    requires OwnBuffers(s) && x in multiset(s) && y in multiset(s) && x != y
    ensures x.buffer != y.buffer
  {
  }

  /** Rearranging slots keeps their buffers apart. */
  lemma RearrangedOwn(s: seq<Mess>, t: seq<Mess>)
    requires multiset(s) == multiset(t) && OwnBuffers(s)
    ensures OwnBuffers(t)
  {
    forall i, j | 0 <= i < j < |t| ensures t[i].buffer != t[j].buffer {
      OnceEach(s, t[i]);
      OnceOnly(t, i, j);
      assert t[i] in multiset(t) && t[j] in multiset(t);
      Apart(s, t[i], t[j]);
    }
  }
}

module Mqueue {
  import opened Sorting
  import opened Messages
  import opened Ring

  ghost predicate Asc(s: seq<Mess>) {
    forall i, j :: 0 <= i < j < |s| ==> CompMess(s[i], s[j]) <= 0
  }

  /** The qsort of the C library: all that is promised is an ascending rearrangement.  Here
      the kernel's own quicksort does it, on a copy with a sentinel put in front. */
  method Qsort(a: array<Mess>, lo: nat, n: nat)
    requires lo + n <= a.Length
    modifies a
    ensures Asc(a[lo..lo + n]) && multiset(a[lo..lo + n]) == old(multiset(a[lo..lo + n]))
    ensures forall i :: 0 <= i < a.Length && !(lo <= i < lo + n) ==> a[i] == old(a[i])
  {
    var s := SortedCopy(a[lo..lo + n]);
    SameSize(s, a[lo..lo + n]);
    CopyBack(a, lo, s);
  }

  method CopyBack(a: array<Mess>, lo: nat, s: seq<Mess>)
    requires lo + |s| <= a.Length
    modifies a
    ensures a[lo..lo + |s|] == s
    ensures forall i :: 0 <= i < a.Length && !(lo <= i < lo + |s|) ==> a[i] == old(a[i])
  {
    for k := 0 to |s|
      invariant forall i :: lo <= i < lo + k ==> a[i] == s[i - lo]
      invariant forall i :: 0 <= i < a.Length && !(lo <= i < lo + k) ==> a[i] == old(a[i])
    {
      a[lo + k] := s[k];
    }
  }

  /** Everything above slot 0, which holds the sentinel. */
  method SortTail(t: array<Mess>)
    requires t.Length > 0 && From(t[..], 1, t.Length - 1, t[0], CompMess)
    modifies t
    ensures Rearranged(old(t[..]), t[..], 1, t.Length - 1) && Sorted(t[..], 1, t.Length - 1, CompMess)
  {
    CompMessIsPreorder();
    var inside := Quicksort(t, 1, t.Length - 1, CompMess);
    assert inside;
  }

  method SortedCopy(s: seq<Mess>) returns (r: seq<Mess>)
    ensures Asc(r) && multiset(r) == multiset(s)
  {
    var low := Lowest(s);
    var t := new Mess[|s| + 1](i requires 0 <= i < |s| + 1 => if i == 0 then low else s[i - 1]);
    assert t[1..] == s;
    ghost var t0 := t[..];
    assert t0[1..|s| + 1] == s;
    SortTail(t);
    r := t[1..];
    assert t[..][1..|s| + 1] == r;
    forall i, j | 0 <= i < j < |r| ensures CompMess(r[i], r[j]) <= 0 {
      assert r[i] == t[..][i + 1] && r[j] == t[..][j + 1];
    }
  }

  method Lowest(s: seq<Mess>) returns (m: Mess)
    ensures forall k :: 0 <= k < |s| ==> CompMess(m, s[k]) <= 0
  {
    m := Mess(0, 0, Order(0, 0, 0));
    for k := 0 to |s|
      invariant forall i :: 0 <= i < k ==> CompMess(m, s[i]) <= 0
    {
      if k == 0 || CompMess(s[k], m) < 0 {
        m := s[k];
      }
    }
  }

  /** The ring and the rest of the slots, when the ring wraps. */
  lemma WrappedMultiset<T>(a: seq<T>, out: nat, inn: nat)
    requires inn < out < |a|
    ensures multiset(a) == multiset(Contents(a, out, inn)) + multiset(a[inn..out])
  {
    assert a == a[..inn] + a[inn..out] + a[out..];
  }

  lemma SliceMultiset<T>(a: seq<T>, b: seq<T>, lo: nat, hi: nat)
    requires |a| == |b| && lo <= hi <= |a| && multiset(a[lo..hi]) == multiset(b[lo..hi])
    requires forall i :: 0 <= i < |a| && !(lo <= i < hi) ==> a[i] == b[i]
    ensures multiset(a) == multiset(b)
  {
    assert a == a[..lo] + a[lo..hi] + a[hi..];
    assert b == a[..lo] + b[lo..hi] + a[hi..];
  }

  class MBox {
    const messArray: array<Mess>
    const buffers: array<string>     // the memory behind each slot's `buffer` pointer
    const msgSize: nat               // mq_msgsize
    var mIdxIn: nat
    var mIdxOut: nat
    var lastInOrder: nat
    ghost var queue: seq<Message>    // the pending messages as a receiver will get them

    ghost predicate Cursors()
      reads this
    {
      mIdxIn < messArray.Length && mIdxOut < messArray.Length
    }

    /** The slots in use, next to be received first. */
    ghost function Pending(): (r: seq<Mess>)
      requires Cursors()
      reads this, messArray
      ensures |r| == Len(mIdxOut, mIdxIn, messArray.Length)
    {
      Contents(messArray[..], mIdxOut, mIdxIn)
    }

    /** NUMB_MESS. */
    function NumbMess(): (n: nat)
      requires Cursors()
      reads this, messArray
      ensures n == |Pending()|
    {
      if mIdxIn >= mIdxOut then mIdxIn - mIdxOut else messArray.Length - mIdxOut + mIdxIn
    }

    method SortUnwrapped()
      requires Cursors() && mIdxOut <= mIdxIn
      modifies messArray
      ensures multiset(Pending()) == multiset(old(Pending())) && Asc(Pending())
      ensures multiset(messArray[..]) == multiset(old(messArray[..])) && messArray[mIdxIn] == old(messArray[mIdxIn])
      ensures forall k :: mIdxIn <= k < messArray.Length ==> messArray[k] == old(messArray[k])
    {
      ghost var a := messArray[..];
      Qsort(messArray, mIdxOut, NumbMess());
      SliceMultiset(a, messArray[..], mIdxOut, mIdxIn);
    }

    /** The first copy loop of sortByPrio. */
    method CopyOut(tempT: array<Mess>)
      requires Cursors() && tempT.Length == |Pending()| && tempT != messArray
      modifies tempT
      ensures tempT[..] == Pending()
    {
      var i: nat := mIdxOut;
      HoldsContents(messArray[..], mIdxOut, mIdxIn, Pending());
      for j := 0 to tempT.Length
        invariant i == Slot(mIdxOut, j, messArray.Length)
        invariant tempT[..j] == Pending()[..j]
      {
        Walk(mIdxOut, mIdxIn, j, messArray.Length);
        tempT[j] := messArray[i];
        i := Inc(i, messArray.Length);
      }
    }

    /** The second copy loop of sortByPrio. */
    method CopyIn(tempT: array<Mess>)
      requires Cursors() && tempT.Length == |Pending()| && tempT != messArray
      modifies messArray
      ensures Pending() == tempT[..]
      ensures mIdxIn < mIdxOut ==> messArray[mIdxIn..mIdxOut] == old(messArray[mIdxIn..mIdxOut])
    {
      var i: nat := mIdxOut;
      var max := messArray.Length;
      for j := 0 to tempT.Length
        invariant i == Slot(mIdxOut, j, max)
        invariant forall k :: 0 <= k < j ==> messArray[Slot(mIdxOut, k, max)] == tempT[k]
        invariant forall s :: mIdxIn <= s < mIdxOut ==> messArray[s] == old(messArray[s])
      {
        Walk(mIdxOut, mIdxIn, j, max);
        messArray[i] := tempT[j];
        i := Inc(i, max);
      }
      HoldsContents(messArray[..], mIdxOut, mIdxIn, tempT[..]);
    }

    method SortWrapped()
      requires Cursors() && mIdxIn < mIdxOut
      modifies messArray
      ensures multiset(Pending()) == multiset(old(Pending())) && Asc(Pending())
      ensures multiset(messArray[..]) == multiset(old(messArray[..])) && messArray[mIdxIn] == old(messArray[mIdxIn])
    {
      var n := NumbMess();
      var tempT := new Mess[n](_ => Mess(0, 0, Order(0, 0, 0)));
      CopyOut(tempT);
      assert tempT[0..n] == tempT[..];
      WrappedMultiset(messArray[..], mIdxOut, mIdxIn);
      Qsort(tempT, 0, n);
      assert tempT[0..n] == tempT[..];
      assert messArray[mIdxIn] == messArray[mIdxIn..mIdxOut][0];
      CopyIn(tempT);
      assert messArray[mIdxIn] == messArray[mIdxIn..mIdxOut][0];
      WrappedMultiset(messArray[..], mIdxOut, mIdxIn);
    }

    /** sortByPrio: the ring is sorted; nothing but the order of slots changes. */
    method SortByPrio()
      requires Cursors()
      modifies messArray
      ensures multiset(Pending()) == multiset(old(Pending())) && Asc(Pending())
      ensures multiset(messArray[..]) == multiset(old(messArray[..])) && messArray[mIdxIn] == old(messArray[mIdxIn])
      ensures mIdxOut <= mIdxIn ==> forall k :: mIdxIn <= k < messArray.Length ==> messArray[k] == old(messArray[k])
    {
      if mIdxOut <= mIdxIn {
        SortUnwrapped();
      } else {
        SortWrapped();
      }
    }

    // ----- the messages

    /** Slots have buffers of their own, big enough for any message, and the pending
        messages are in order. */
    ghost predicate Valid()
      reads this, messArray, buffers
    {
      && Cursors() && SlotsOk(messArray[..], buffers[..], msgSize) && Asc(Pending())
      && queue == View(Pending(), buffers[..]) && lastInOrder < WRAP
    }

    /** The in-cursor has not come round yet, and no slot from it on has been used. */
    ghost predicate Young()
      requires Cursors()
      reads this, messArray
    {
      mIdxOut <= mIdxIn && forall k :: mIdxIn <= k < messArray.Length ==> messArray[k].order.prio == 0
    }

    /** The part of mq_open that makes the slots and their buffers. */
    constructor (maxmsg: nat, msgSize: nat)
      requires maxmsg > 0
      ensures Valid() && queue == [] && messArray.Length == maxmsg && this.msgSize == msgSize
      ensures lastInOrder == 0 && fresh(messArray) && fresh(buffers) && mIdxIn == mIdxOut == 0
      ensures forall k :: 0 <= k < maxmsg ==> messArray[k].order == Order(0, 0, 0)
      ensures Young()
    {
      this.msgSize := msgSize;
      messArray := new Mess[maxmsg](k requires 0 <= k => Mess(k, 0, Order(0, 0, 0)));
      buffers := new string[maxmsg](_ => seq(msgSize, _ => ' '));
      mIdxIn, mIdxOut, lastInOrder, queue := 0, 0, 0, [];
    }

    /** The writing part of mq_send: the text goes to the buffer of the slot at the
        in-cursor, and the slot joins the ring. */
    method Put(msg: string, msgprio: nat, now: int)
      requires Valid() && |msg| <= msgSize && NumbMess() < messArray.Length - 1
      modifies this`mIdxIn, this`lastInOrder, this`queue, messArray, buffers
      ensures Cursors() && SlotsOk(messArray[..], buffers[..], msgSize) && lastInOrder < WRAP
      ensures queue == View(Pending(), buffers[..]) == old(queue) + [Message(Order(now, msgprio, old(lastInOrder)), msg)]
      ensures lastInOrder == (old(lastInOrder) + 1) % WRAP
      ensures mIdxOut == old(mIdxOut) && NumbMess() == old(NumbMess()) + 1
      ensures mIdxIn == Inc(old(mIdxIn), messArray.Length) && messArray[mIdxIn] == old(messArray[Inc(mIdxIn, messArray.Length)])
      ensures forall k :: 0 <= k < messArray.Length && k != old(mIdxIn) ==> messArray[k] == old(messArray[k])
    {
      ghost var a, bs, ps := messArray[..], buffers[..], Pending();
      var b := messArray[mIdxIn].buffer;
      buffers[b] := msg + buffers[b][|msg|..];
      var m := Mess(b, |msg|, Order(now, msgprio, lastInOrder));
      messArray[mIdxIn] := m;
      lastInOrder := (lastInOrder + 1) % WRAP;
      HoldsContents(a, mIdxOut, mIdxIn, ps);
      Append(a, mIdxOut, mIdxIn, ps, m);
      HoldsContents(messArray[..], mIdxOut, Inc(mIdxIn, messArray.Length), ps + [m]);
      OutsideRing(a, mIdxOut, mIdxIn);
      mIdxIn := Inc(mIdxIn, messArray.Length);
      ViewAppended(ps, m, bs, buffers[..]);
      queue := View(Pending(), buffers[..]);
    }

    /** The sorting part of mq_send. */
    method SortQueue()
      requires Cursors() && SlotsOk(messArray[..], buffers[..], msgSize) && lastInOrder < WRAP
      requires queue == View(Pending(), buffers[..])
      modifies this`queue, messArray
      ensures Valid() && Ascending(queue) && multiset(queue) == multiset(old(queue))
      ensures messArray[mIdxIn] == old(messArray[mIdxIn])
      ensures mIdxOut <= mIdxIn ==> forall k :: mIdxIn <= k < messArray.Length ==> messArray[k] == old(messArray[k])
    {
      ghost var a, ps := messArray[..], Pending();
      SortByPrio();
      RearrangedSlots(a, messArray[..], buffers[..], msgSize);
      ViewRearranged(ps, Pending(), buffers[..]);
      queue := View(Pending(), buffers[..]);
    }

    /** mq_send up to the unlock of the queue's semaphore. */
    method SendLocked(msg: string, msgprio: nat, now: int) returns (rc: MqCode)
      requires Valid()
      modifies this`mIdxIn, this`lastInOrder, this`queue, messArray, buffers
      ensures Valid()
      ensures rc == if |msg| > msgSize then EMSGSIZE
                    else if old(NumbMess()) >= messArray.Length - 1 then EAGAIN
                    else MQ_OK
      ensures rc != MQ_OK ==> queue == old(queue) && lastInOrder == old(lastInOrder)
      ensures rc != MQ_OK ==> mIdxIn == old(mIdxIn) && messArray[..] == old(messArray[..])
      ensures rc == MQ_OK ==>
        && Joins(old(queue), Message(Order(now, msgprio, old(lastInOrder)), msg), queue)
        && lastInOrder == (old(lastInOrder) + 1) % WRAP
        && mIdxIn == Inc(old(mIdxIn), messArray.Length)
        && messArray[mIdxIn] == old(messArray[Inc(mIdxIn, messArray.Length)])
      ensures old(Young()) && (rc == MQ_OK ==> old(mIdxIn) + 1 < messArray.Length) ==> Young()
    {
      if !(msgSize >= |msg|) {
        return EMSGSIZE;
      }
      if !(NumbMess() < messArray.Length - 1) {
        return EAGAIN;
      }
      Put(msg, msgprio, now);
      SortQueue();
      rc := MQ_OK;
    }

    /** mq_receive once the queue's semaphore has been passed: the first message leaves.  Until
        the in-cursor has come round the priority reported is 0. */
    method Take() returns (msg: string, msgprio: nat)
      requires Valid() && NumbMess() > 0
      modifies this`mIdxOut, this`queue
      ensures Valid() && old(queue) != [] && msg == old(queue)[0].text && queue == old(queue)[1..]
      ensures msgprio == old(messArray[mIdxIn].order.prio)
      ensures msgprio == old(queue)[0].order.prio <==>
        old(messArray[mIdxIn].order.prio) == old(messArray[mIdxOut].order.prio)
      ensures old(Young()) ==> Young() && msgprio == 0
    {
      HoldsContents(messArray[..], mIdxOut, mIdxIn, Pending());
      var m := messArray[mIdxOut];
      msg := buffers[m.buffer][..m.msgSz];
      msgprio := messArray[mIdxIn].order.prio;
      PopHead(messArray[..], messArray[..], mIdxOut, mIdxIn, Pending());
      HoldsContents(messArray[..], Inc(mIdxOut, messArray.Length), mIdxIn, Pending()[1..]);
      mIdxOut := Inc(mIdxOut, messArray.Length);
      queue := queue[1..];
    }
  }

  /** A message of priority 5, alone in a new queue, is reported with priority 0. */
  method WrongPriority() returns (msg: string, msgprio: nat)
    ensures msg == "x" && msgprio == 0
  {
    var m := new MBox(3, 8);
    var rc := m.SendLocked("x", 5, 0);
    assert m.queue[0] == Message(Order(0, 5, 0), "x") by {
      assert m.queue[0] in multiset(m.queue);
    }
    msg, msgprio := m.Take();
  }

  datatype Call = Sending(msg: string, prio: nat, now: int) | Receiving

  /** How many of the first `n` calls send a message that is not too long, and how many messages
      they leave in the queue; a receive on an empty queue takes none, as it would wait. */
  function Sent(calls: seq<Call>, n: nat, size: nat): nat
    requires n <= |calls|
  {
    if n == 0 then 0
    else Sent(calls, n - 1, size) + if calls[n - 1].Sending? && |calls[n - 1].msg| <= size then 1 else 0
  }

  function Left(calls: seq<Call>, n: nat, size: nat): nat
    requires n <= |calls|
  {
    if n == 0 then 0
    else
      var l := Left(calls, n - 1, size);
      match calls[n - 1]
      case Sending(msg, _, _) => if |msg| <= size then l + 1 else l
      case Receiving => if l > 0 then l - 1 else 0
  }

  lemma {:induction false} SentGrows(calls: seq<Call>, n: nat, size: nat)
    requires n <= |calls|
    ensures Sent(calls, n, size) <= Sent(calls, |calls|, size)
    decreases |calls| - n
  {
    if n < |calls| {
      SentGrows(calls, n + 1, size);
    }
  }

  lemma {:induction false} LeftOfSent(calls: seq<Call>, n: nat, size: nat)
    requires n <= |calls|
    ensures Left(calls, n, size) <= Sent(calls, n, size)
  {
    if n > 0 {
      LeftOfSent(calls, n - 1, size);
    }
  }

  lemma CallCounts(calls: seq<Call>, i: nat, size: nat)
    requires i < |calls|
    ensures var c, l := calls[i], Left(calls, i, size);
      var fits := c.Sending? && |c.msg| <= size;
      && Sent(calls, i + 1, size) == Sent(calls, i, size) + (if fits then 1 else 0)
      && Left(calls, i + 1, size) == l + (if fits then 1 else 0) - if c.Receiving? && l > 0 then 1 else 0
  {
  }

  ghost predicate AllZero(prios: seq<nat>) {
    forall k :: 0 <= k < |prios| ==> prios[k] == 0
  }

  /** What is reported of the message that a call takes, if it takes one. */
  method Do(m: MBox, c: Call) returns (prios: seq<nat>)
    requires m.Valid() && m.Young() && |m.queue| <= m.mIdxIn
    requires c.Sending? && |c.msg| <= m.msgSize ==> m.mIdxIn + 1 < m.messArray.Length
    modifies m`mIdxIn, m`mIdxOut, m`lastInOrder, m`queue, m.messArray, m.buffers
    ensures m.Valid() && m.Young() && AllZero(prios)
    ensures var fits := c.Sending? && |c.msg| <= m.msgSize;
      && m.mIdxIn == old(m.mIdxIn) + (if fits then 1 else 0)
      && |prios| == (if c.Receiving? && old(m.queue) != [] then 1 else 0)
      && |m.queue| == old(|m.queue|) + (if fits then 1 else 0) - |prios|
  {
    prios := [];
    match c
    case Sending(msg, prio, now) =>
      ghost var q := m.queue;
      var rc := m.SendLocked(msg, prio, now);
      if rc == MQ_OK {
        assert |multiset(m.queue)| == |multiset(q)| + 1;
      }
    case Receiving =>
      if m.NumbMess() > 0 {
        var _, prio := m.Take();
        prios := [prio];
      }
  }

  method DoAll(m: MBox, calls: seq<Call>) returns (prios: seq<nat>)
    requires m.Valid() && m.Young() && m.mIdxIn == |m.queue| == 0
    requires Sent(calls, |calls|, m.msgSize) < m.messArray.Length
    modifies m`mIdxIn, m`mIdxOut, m`lastInOrder, m`queue, m.messArray, m.buffers
    ensures AllZero(prios) && |prios| == Sent(calls, |calls|, m.msgSize) - Left(calls, |calls|, m.msgSize)
  {
    prios := [];
    assert Sent(calls, 0, m.msgSize) == Left(calls, 0, m.msgSize) == 0;
    hide Sent, Left;
    for i := 0 to |calls|
      invariant m.Valid() && m.Young() && AllZero(prios)
      invariant m.mIdxIn == Sent(calls, i, m.msgSize) && |m.queue| == Left(calls, i, m.msgSize)
      invariant |prios| == Sent(calls, i, m.msgSize) - Left(calls, i, m.msgSize)
    {
      SentGrows(calls, i + 1, m.msgSize);
      LeftOfSent(calls, i, m.msgSize);
      CallCounts(calls, i, m.msgSize);
      var more := Do(m, calls[i]);
      prios := prios + more;
    }
  }

  /** Whatever the calls on a new queue, as long as they send fewer messages than the queue has
      slots every message received is reported with priority 0. */
  method ReportsZero(maxmsg: nat, msgSize: nat, calls: seq<Call>) returns (prios: seq<nat>)
    requires Sent(calls, |calls|, msgSize) < maxmsg
    ensures |prios| == Sent(calls, |calls|, msgSize) - Left(calls, |calls|, msgSize)
    ensures forall k :: 0 <= k < |prios| ==> prios[k] == 0
  {
    var m := new MBox(maxmsg, msgSize);
    prios := DoAll(m, calls);
  }

  datatype MqCode = MQ_OK | EMSGSIZE | EAGAIN | EINVAL

  ghost predicate SlotsOk(a: seq<Mess>, bufs: seq<string>, msgSize: nat) {
    && OwnBuffers(a)
    && (forall k :: 0 <= k < |a| ==> a[k].buffer < |bufs| && a[k].msgSz <= msgSize)
    && (forall b :: 0 <= b < |bufs| ==> |bufs[b]| == msgSize)
  }

  lemma RearrangedSlots(s: seq<Mess>, t: seq<Mess>, bufs: seq<string>, msgSize: nat)
    requires SlotsOk(s, bufs, msgSize) && multiset(s) == multiset(t)
    ensures SlotsOk(t, bufs, msgSize)
  {
    RearrangedOwn(s, t);
    forall k | 0 <= k < |t| ensures t[k].buffer < |bufs| && t[k].msgSz <= msgSize {
      assert t[k] in multiset(s);
    }
  }

  /** No pending slot shares the buffer of the slot at the in-cursor. */
  lemma OutsideRing(a: seq<Mess>, out: nat, inn: nat)
    requires out < |a| && inn < |a| && OwnBuffers(a)
    ensures forall k :: 0 <= k < Len(out, inn, |a|) ==> Contents(a, out, inn)[k].buffer != a[inn].buffer
  {
    HoldsContents(a, out, inn, Contents(a, out, inn));
    forall k | 0 <= k < Len(out, inn, |a|)
      ensures Contents(a, out, inn)[k].buffer != a[inn].buffer
    {
      Walk(out, inn, k, |a|);
      var s := Slot(out, k, |a|);
      assert if s < inn then a[s].buffer != a[inn].buffer else a[inn].buffer != a[s].buffer;
    }
  }

  /** Writing to a buffer that no pending slot uses adds one message and changes none. */
  lemma ViewAppended(ps: seq<Mess>, m: Mess, bufs: seq<string>, bufs': seq<string>)
    requires |bufs'| == |bufs| && m.buffer < |bufs| && m.msgSz <= |bufs'[m.buffer]|
    requires forall b :: 0 <= b < |bufs| && b != m.buffer ==> bufs'[b] == bufs[b]
    requires forall k :: 0 <= k < |ps| ==> ps[k].buffer != m.buffer
    ensures View(ps + [m], bufs') == View(ps, bufs) + [Message(m.order, bufs'[m.buffer][..m.msgSz])]
  {
  }
}

module MqDevice {
  import opened Messages
  import opened Mqueue
  import opened Ring
  import opened Tcbs
  import opened Itc
  import opened Sems

  /** QueueD: the mailbox and the semaphore that counts its messages. */
  class QueueD {
    const mBox: MBox
    const sem: Semaphore

    ghost predicate Valid()
      reads this, mBox, mBox.messArray, mBox.buffers, sem, sem.blocked
    {
      mBox.Valid() && sem.Valid()
    }

    constructor (maxmsg: nat, msgSize: nat, maxBlocked: nat, levels: nat)
      requires maxmsg > 0 && 0 < maxBlocked < UINT_MAX
      ensures Valid() && mBox.queue == [] && sem.Model() == Sem(0, [], false, maxBlocked)
    {
      mBox := new MBox(maxmsg, msgSize);
      sem := new Semaphore(maxBlocked, levels, 0, false, SEM);
    }

    /** sem_post of the queue's semaphore. */
    method Post(pool: array<Tcb>)
      requires Valid() && sem.Serves(pool)
      modifies sem`token, sem`inIdx, sem`outIdx, sem`waiters, sem.blocked, pool
      ensures Valid()
      ensures sem.Model() == old(Unlock(sem.Model(), pool[..])).0
      ensures pool[..] == old(Unlock(sem.Model(), pool[..])).1
    {
      sem.UnlockStage(pool);
    }

    /** mq_send from the checks to the post of the queue's semaphore. */
    method Send(pool: array<Tcb>, msg: string, msgprio: nat, now: int) returns (rc: MqCode)
      requires Valid() && sem.Serves(pool)
      modifies mBox`mIdxIn, mBox`lastInOrder, mBox`queue, mBox.messArray, mBox.buffers
      modifies sem`token, sem`inIdx, sem`outIdx, sem`waiters, sem.blocked, pool
      ensures Valid()
      ensures rc == if |msg| > mBox.msgSize then EMSGSIZE
                    else if old(mBox.NumbMess()) >= mBox.messArray.Length - 1 then EAGAIN
                    else MQ_OK
      ensures if rc == MQ_OK
        then Joins(old(mBox.queue), Message(Order(now, msgprio, old(mBox.lastInOrder)), msg), mBox.queue)
        else mBox.queue == old(mBox.queue)
      ensures sem.Model() == if rc == MQ_OK then old(Unlock(sem.Model(), pool[..])).0 else old(sem.Model())
      ensures pool[..] == if rc == MQ_OK then old(Unlock(sem.Model(), pool[..])).1 else old(pool[..])
    {
      rc := mBox.SendLocked(msg, msgprio, now);
      assert sem.Serves(pool);
      if rc == MQ_OK {
        Post(pool);
      }
    }

    /** mq_receive up to the wait for the queue's semaphore.  When the wait is over, at once
        or after the yield, `mBox.Take` does the rest. */
    method Await(pool: array<Tcb>, self: int, buflen: nat, nonblock: bool) returns (rc: MqCode, waits: bool)
      requires Valid() && 0 <= self < pool.Length
      modifies sem`token, sem`inIdx, sem`waiters, sem.blocked, pool
      ensures Valid()
      ensures rc == EMSGSIZE <==> buflen < mBox.msgSize
      ensures rc == EAGAIN <==> buflen >= mBox.msgSize && mBox.NumbMess() == 0 && nonblock
      ensures rc == EMSGSIZE || rc == EAGAIN ==> sem.Model() == old(sem.Model()) && pool[..] == old(pool[..])
      ensures rc == MQ_OK || rc == EINVAL ==>
        var l := old(Lock(sem.Model(), pool[..], self, false, 0));
        sem.Model() == l.0 && pool[..] == l.1 && waits == l.2 && (rc == MQ_OK <==> l.3 == ERR_OK)
    {
      waits := false;
      if !(buflen >= mBox.msgSize) {
        return EMSGSIZE, waits;
      }
      if mBox.NumbMess() <= 0 {
        if nonblock {
          return EAGAIN, waits;
        }
      }
      var o := sem.LockEnter(pool, self, 0, 0);
      waits := o.Blocked?;
      rc := if waits || o.rc == ERR_OK then MQ_OK else EINVAL;
    }
  }
}
