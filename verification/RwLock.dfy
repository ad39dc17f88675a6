/** The readers-writer lock.

    Every wait, signal and mutex operation in it can yield, and a signal also gives up the
    inner mutex, so no use is made of the inner mutex here: between two yields the code is
    one step, and any other thread may run at every yield. */
module RwLock {
  import opened Tally

  /** The fields of pthread_rwlock_t. */
  datatype R = R(rr: int, ww: int, bw: int, br: int, bwp: seq<int>)

  /** What the end of a release does with the waiters. */
  datatype Wake = SignalWriters | BroadcastReaders | SignalReaders | Einval

  class PthreadRwlock {
    var readersReading: int
    var writersWriting: int
    var blockedWriters: int
    var blockedReaders: int
    const bwritersPrio: array<int>

    ghost function Model(): R
      reads this, bwritersPrio
    {
      R(readersReading, writersWriting, blockedWriters, blockedReaders, bwritersPrio[..])
    }

    /** PTHREAD_RWLOCK_INITIALIZER. */
    constructor (prios: nat)
      ensures Model() == R(0, 0, 0, 0, seq(prios, _ => 0)) && fresh(bwritersPrio)
    {
      readersReading, writersWriting, blockedWriters, blockedReaders := 0, 0, 0, 0;
      bwritersPrio := new int[prios](_ => 0);
    }

    /** The sum over the priorities from `prio` down to 0. */
    method SumDown(prio: nat) returns (s: int)
      requires prio < bwritersPrio.Length
      ensures s == Sum(bwritersPrio[..prio + 1])
    {
      s := 0;
      var i: int := prio;
      ghost var rest := bwritersPrio[..prio + 1];
      while i >= 0
        invariant -1 <= i <= prio
        invariant s + Sum(bwritersPrio[..i + 1]) == Sum(rest)
      {
        assert bwritersPrio[..i + 1][..i] == bwritersPrio[..i];
        s := s + bwritersPrio[i];
        i := i - 1;
      }
    }

    /** The sum over the priorities from `prio` up. */
    method SumUp(prio: nat) returns (s: int)
      requires prio < bwritersPrio.Length
      ensures s == Sum(bwritersPrio[prio..])
    {
      s := 0;
      for i := prio to bwritersPrio.Length
        invariant s == Sum(bwritersPrio[prio..i])
      {
        assert bwritersPrio[prio..i + 1][..i - prio] == bwritersPrio[prio..i];
        s := s + bwritersPrio[i];
      }
      assert bwritersPrio[prio..bwritersPrio.Length] == bwritersPrio[prio..];
    }

    /** rdlock up to the head of its loop. */
    method RdEnter(prio: nat) returns (granted: int)
      requires prio < bwritersPrio.Length
      ensures granted == if blockedWriters != 0 then Sum(bwritersPrio[..prio + 1]) else 0
    {
      granted := 0;
      if blockedWriters != 0 {
        granted := SumDown(prio);
      }
    }

    /** The head of the loop of rdlock: enter, signal first, or wait. */
    method RdCheck(granted: int) returns (r: Entry)
      modifies this`readersReading, this`blockedReaders
      ensures Model() == RdChecked(old(Model()), granted).0 && r == RdChecked(old(Model()), granted).1
      ensures r.Holds? <==> writersWriting == 0 && granted == 0
      ensures r.Signals? <==> granted != 0 && writersWriting == 0 && old(readersReading) == 0
      ensures readersReading == old(readersReading) + if r.Holds? then 1 else 0
      ensures blockedReaders == old(blockedReaders) + if r.Waits? then 1 else 0
    {
      if writersWriting != 0 || granted != 0 {
        if granted != 0 && writersWriting == 0 && readersReading == 0 {
          return Signals;
        }
        blockedReaders := blockedReaders + 1;
        return Waits;
      }
      readersReading := readersReading + 1;
      return Holds;
    }

    /** rdlock after the signal in its loop. */
    method RdAfterSignal()
      modifies this`blockedReaders
      ensures Model() == old(Model()).(br := old(blockedReaders) + 1)
    {
      blockedReaders := blockedReaders + 1;
    }

    /** rdlock after a wait; the count of granted writers adds up from wait to wait. */
    method RdWake(granted: int, prio: nat) returns (granted': int)
      requires prio < bwritersPrio.Length
      modifies this`blockedReaders
      ensures Model() == old(Model()).(br := old(blockedReaders) - 1)
      ensures granted' == if blockedWriters != 0 then granted + Sum(bwritersPrio[prio..]) else 0
    {
      blockedReaders := blockedReaders - 1;
      granted' := 0;
      if blockedWriters != 0 {
        var s := SumUp(prio);
        granted' := granted + s;
      }
    }

    /** The head of the loop of wrlock. */
    method WrCheck(prio: nat) returns (r: Entry)
      requires prio < bwritersPrio.Length
      modifies this`writersWriting, this`blockedWriters, bwritersPrio
      ensures Model() == WrChecked(old(Model()), prio).0 && r == WrChecked(old(Model()), prio).1
      ensures r == if readersReading == 0 && old(writersWriting) == 0 then Holds else Waits
      ensures writersWriting == old(writersWriting) + if r.Holds? then 1 else 0
      ensures blockedWriters == old(blockedWriters) + if r.Waits? then 1 else 0
      ensures bwritersPrio[..] ==
        if r.Waits? then old(bwritersPrio[..])[prio := old(bwritersPrio[prio]) + 1] else old(bwritersPrio[..])
    {
      if readersReading != 0 || writersWriting != 0 {
        blockedWriters := blockedWriters + 1;
        bwritersPrio[prio] := bwritersPrio[prio] + 1;
        return Waits;
      }
      writersWriting := writersWriting + 1;
      assert writersWriting < 2;
      return Holds;
    }

    /** wrlock after a wait; the thread's priority may have changed since it began to wait. */
    method WrWake(prio: nat)
      requires prio < bwritersPrio.Length
      modifies this`blockedWriters, bwritersPrio
      ensures Model() == WrWoken(old(Model()), prio)
      ensures blockedWriters == old(blockedWriters) - 1
      ensures bwritersPrio[..] == old(bwritersPrio[..])[prio := old(bwritersPrio[prio]) - 1]
    {
      blockedWriters := blockedWriters - 1;
      bwritersPrio[prio] := bwritersPrio[prio] - 1;
    }

    /** unlock up to its signal. */
    method Unlock(prio: nat) returns (wake: Wake)
      requires prio < bwritersPrio.Length
      modifies this`readersReading, this`writersWriting
      ensures Model() == Unlocked(old(Model()))
      ensures wake == Wakes(old(Model()), prio)
      ensures wake == Einval <==> old(readersReading) == 0 && old(writersWriting) == 0
      ensures wake == SignalReaders <==> old(writersWriting) == 0 && old(readersReading) != 0
      ensures wake == SignalWriters <==>
        old(writersWriting) != 0 && blockedWriters != 0 && (Sum(bwritersPrio[..prio + 1]) != 0 || blockedReaders == 0)
      ensures writersWriting == 0
      ensures readersReading == old(readersReading) - if wake == SignalReaders then 1 else 0
    {
      var granted := 0;
      if readersReading == 0 && writersWriting == 0 {
        return Einval;
      }
      if writersWriting != 0 {
        writersWriting := 0;
        if blockedWriters != 0 {
          granted := SumDown(prio);
          if granted != 0 {
            return SignalWriters;
          } else if blockedReaders != 0 {
            return BroadcastReaders;
          } else {
            return SignalWriters;
          }
        } else {
          return BroadcastReaders;
        }
      }
      readersReading := readersReading - 1;
      return SignalReaders;
    }
  }

  /** How an attempt to enter ends: with the lock, at the signal, or in the wait. */
  datatype Entry = Holds | Signals | Waits

  function RdChecked(l: R, granted: int): (R, Entry) {
    if l.ww == 0 && granted == 0 then (l.(rr := l.rr + 1), Holds)
    else if l.ww == 0 && l.rr == 0 then (l, Signals)
    else (l.(br := l.br + 1), Waits)
  }

  function WrChecked(l: R, prio: nat): (R, Entry)
    requires prio < |l.bwp|
  {
    if l.rr == 0 && l.ww == 0 then (l.(ww := 1), Holds)
    else (l.(bw := l.bw + 1, bwp := l.bwp[prio := l.bwp[prio] + 1]), Waits)
  }

  function WrWoken(l: R, prio: nat): R
    requires prio < |l.bwp|
  {
    l.(bw := l.bw - 1, bwp := l.bwp[prio := l.bwp[prio] - 1])
  }

  function Unlocked(l: R): R {
    if l.ww != 0 then l.(ww := 0) else if l.rr != 0 then l.(rr := l.rr - 1) else l
  }

  /** Whom the release wakes: after a writer the blocked writers of at least the releasing
      thread's priority come before the readers; after a reader only readers are signalled. */
  function Wakes(l: R, prio: nat): Wake
    requires prio < |l.bwp|
  {
    if l.ww != 0 then
      if l.bw != 0 && (Sum(l.bwp[..prio + 1]) != 0 || l.br == 0) then SignalWriters else BroadcastReaders
    else if l.rr != 0 then SignalReaders
    else Einval
  }
}

/** Whole runs, at yield points, in which only holders unlock. */
module RwLockRuns {
  import opened Tally
  import opened RwLock

  /** Where a thread is, with its local count of granted writers where that is still needed. */
  datatype Pc =
    | Out | Reading | Writing
    | RdSignal(granted: int) | RdWait(granted: int) | WrWait

  datatype World = World(l: R, pcs: seq<Pc>)

  /** `prio` is the priority the thread has at that moment. */
  datatype Op =
    | ReadLock(t: nat, prio: nat)
    | AfterSignal(t: nat)
    | ReadWake(t: nat, prio: nat)
    | WriteLock(t: nat, prio: nat)
    | WriteWake(t: nat, prio: nat)
    | Release(t: nat)

  function RdPc(e: Entry, granted: int): Pc {
    match e case Holds => Reading case Signals => RdSignal(granted) case Waits => RdWait(granted)
  }

  function WrPc(e: Entry): Pc {
    if e.Holds? then Writing else WrWait
  }

  ghost predicate Next(w: World, op: Op, w': World) {
    && op.t < |w.pcs|
    && match op
       case ReadLock(t, prio) =>
         && w.pcs[t] == Out && prio < |w.l.bwp|
         && var granted := if w.l.bw != 0 then Sum(w.l.bwp[..prio + 1]) else 0;
            var (l', e) := RdChecked(w.l, granted);
            w' == World(l', w.pcs[t := RdPc(e, granted)])
       case AfterSignal(t) =>
         && w.pcs[t].RdSignal?
         && w' == World(w.l.(br := w.l.br + 1), w.pcs[t := RdWait(w.pcs[t].granted)])
       case ReadWake(t, prio) =>
         && w.pcs[t].RdWait? && prio < |w.l.bwp|
         && var granted := if w.l.bw != 0 then w.pcs[t].granted + Sum(w.l.bwp[prio..]) else 0;
            var (l', e) := RdChecked(w.l.(br := w.l.br - 1), granted);
            w' == World(l', w.pcs[t := RdPc(e, granted)])
       case WriteLock(t, prio) =>
         && w.pcs[t] == Out && prio < |w.l.bwp|
         && var (l', e) := WrChecked(w.l, prio);
            w' == World(l', w.pcs[t := WrPc(e)])
       case WriteWake(t, prio) =>
         && w.pcs[t] == WrWait && prio < |w.l.bwp|
         && var (l', e) := WrChecked(WrWoken(w.l, prio), prio);
            w' == World(l', w.pcs[t := WrPc(e)])
       case Release(t) =>
         && (w.pcs[t] == Reading || w.pcs[t] == Writing)
         && w' == World(Unlocked(w.l), w.pcs[t := Out])
  }

  /** The kinds of places that are counted. */
  datatype Place = AtReading | AtWriting | AtRdWait | AtWrWait | Elsewhere

  function Where(p: Pc): Place {
    match p
    case Reading => AtReading
    case Writing => AtWriting
    case RdWait(_) => AtRdWait
    case WrWait => AtWrWait
    case _ => Elsewhere
  }

  function PlaceMarks(pcs: seq<Pc>, p: Place): (r: seq<int>)
    ensures |r| == |pcs| && forall t :: 0 <= t < |r| ==> r[t] == if Where(pcs[t]) == p then 1 else 0
  {
    seq(|pcs|, t requires 0 <= t < |pcs| => if Where(pcs[t]) == p then 1 else 0)
  }

  function Count(pcs: seq<Pc>, p: Place): int {
    Sum(PlaceMarks(pcs, p))
  }

  lemma CountUpdate(pcs: seq<Pc>, t: nat, pc: Pc, p: Place)
    requires t < |pcs|
    ensures Count(pcs[t := pc], p) ==
      Count(pcs, p) - (if Where(pcs[t]) == p then 1 else 0) + if Where(pc) == p then 1 else 0
    ensures Count(pcs, p) >= if Where(pcs[t]) == p then 1 else 0
  {
    var marks, mark := PlaceMarks(pcs, p), if Where(pc) == p then 1 else 0;
    SumUpdate(marks, t, mark);
    SumBits(marks);
    assert PlaceMarks(pcs[t := pc], p) == marks[t := mark];
  }

  ghost predicate Inv(w: World) {
    && (w.l.ww == 0 || w.l.ww == 1) && !(w.l.ww == 1 && w.l.rr > 0)
    && w.l.rr == Count(w.pcs, AtReading) && w.l.ww == Count(w.pcs, AtWriting)
    && w.l.br == Count(w.pcs, AtRdWait) && w.l.bw == Count(w.pcs, AtWrWait)
    && Sum(w.l.bwp) == w.l.bw
  }

  ghost predicate Init(w: World) {
    && w.l.rr == w.l.ww == w.l.bw == w.l.br == 0 && Sum(w.l.bwp) == 0
    && Count(w.pcs, AtReading) == Count(w.pcs, AtWriting) == 0
    && Count(w.pcs, AtRdWait) == Count(w.pcs, AtWrWait) == 0
  }

  ghost predicate Counted(pcs: seq<Pc>, t: nat, pc: Pc, p: Place)
    requires t < |pcs|
  {
    Count(pcs[t := pc], p) ==
      Count(pcs, p) - (if Where(pcs[t]) == p then 1 else 0) + if Where(pc) == p then 1 else 0
  }

  lemma CountAll(pcs: seq<Pc>, t: nat, pc: Pc)
    requires t < |pcs|
    ensures Counted(pcs, t, pc, AtReading) && Counted(pcs, t, pc, AtWriting)
    ensures Counted(pcs, t, pc, AtRdWait) && Counted(pcs, t, pc, AtWrWait)
    ensures Count(pcs, Where(pcs[t])) > 0
  {
    CountUpdate(pcs, t, pc, AtReading);
    CountUpdate(pcs, t, pc, AtWriting);
    CountUpdate(pcs, t, pc, AtRdWait);
    CountUpdate(pcs, t, pc, AtWrWait);
    CountUpdate(pcs, t, pc, Elsewhere);
  }

  lemma ReaderKeepsInv(w: World, op: Op, w': World)
    requires Inv(w) && Next(w, op, w')
    requires op.ReadLock? || op.AfterSignal? || op.ReadWake?
    ensures Inv(w')
  {
    CountAll(w.pcs, op.t, w'.pcs[op.t]);
  }

  lemma WriterKeepsInv(w: World, op: Op, w': World)
    requires Inv(w) && Next(w, op, w')
    requires op.WriteLock? || op.Release?
    ensures Inv(w')
  {
    CountAll(w.pcs, op.t, w'.pcs[op.t]);
    if op.WriteLock? {
      SumUpdate(w.l.bwp, op.prio, w.l.bwp[op.prio] + 1);
    }
  }

  lemma WokenWriterKeepsInv(w: World, op: Op, w': World)
    requires Inv(w) && Next(w, op, w')
    requires op.WriteWake?
    ensures Inv(w')
  {
    hide Count, Sum;
    CountAll(w.pcs, op.t, w'.pcs[op.t]);
    var l := WrWoken(w.l, op.prio);
    SumUpdate(w.l.bwp, op.prio, w.l.bwp[op.prio] - 1);
    SumUpdate(l.bwp, op.prio, l.bwp[op.prio] + 1);
  }

  lemma StepKeepsInv(w: World, op: Op, w': World)
    requires Inv(w) && Next(w, op, w')
    ensures Inv(w')
  {
    match op
    case WriteWake(_, _) => WokenWriterKeepsInv(w, op, w');
    case WriteLock(_, _) => WriterKeepsInv(w, op, w');
    case Release(_) => WriterKeepsInv(w, op, w');
    case _ => ReaderKeepsInv(w, op, w');
  }

  lemma {:induction false} SumOfNone(s: seq<int>)
    requires forall i :: 0 <= i < |s| ==> s[i] >= 0
    ensures Sum(s) >= 0
    ensures Sum(s) == 0 <==> forall i :: 0 <= i < |s| ==> s[i] == 0
  {
    if s != [] {
      SumOfNone(s[..|s| - 1]);
    }
  }

  /** A reader that comes gives way to a writer that writes, and to all writers that are counted
      at its priority or a numerically lower one. */
  lemma ReaderGivesWay(w: World, t: nat, prio: nat, w': World)
    requires Next(w, ReadLock(t, prio), w')
    ensures w'.pcs[t] == Reading <==> w.l.ww == 0 && (w.l.bw == 0 || Sum(w.l.bwp[..prio + 1]) == 0)
    ensures (forall i :: 0 <= i <= prio ==> w.l.bwp[i] >= 0) && w.l.bw != 0 ==>
      (w'.pcs[t] == Reading <==> w.l.ww == 0 && forall i :: 0 <= i <= prio ==> w.l.bwp[i] == 0)
    ensures w'.pcs[t] != Reading ==>
      (w'.pcs[t].RdSignal? <==> w.l.ww == 0 && w.l.rr == 0) && (w'.pcs[t].RdSignal? || w'.pcs[t].RdWait?)
  {
    var below := w.l.bwp[..prio + 1];
    if forall i :: 0 <= i <= prio ==> w.l.bwp[i] >= 0 {
      assert forall i :: 0 <= i < |below| ==> below[i] == w.l.bwp[i];
      SumOfNone(below);
      assert (forall i :: 0 <= i < |below| ==> below[i] == 0) <==> forall i :: 0 <= i <= prio ==> w.l.bwp[i] == 0;
    }
  }

  /** A reader that is woken gives way to those it counted before and to those that are counted
      at its priority or a numerically higher one. */
  lemma WokenReaderGivesWay(w: World, t: nat, prio: nat, w': World)
    requires Next(w, ReadWake(t, prio), w')
    ensures w'.pcs[t] == Reading <==>
      w.l.ww == 0 && (w.l.bw == 0 || w.pcs[t].granted + Sum(w.l.bwp[prio..]) == 0)
  {
  }

  /** A writer enters exactly if nobody reads or writes. */
  lemma WriterEntersAlone(w: World, op: Op, w': World)
    requires Next(w, op, w') && (op.WriteLock? || op.WriteWake?)
    ensures w'.pcs[op.t] == Writing <==> w.l.rr == 0 && w.l.ww == 0
    ensures w'.pcs[op.t] == Writing || w'.pcs[op.t] == WrWait
  {
  }

  ghost predicate Run(ws: seq<World>, ops: seq<Op>) {
    |ws| == |ops| + 1 && forall i :: 0 <= i < |ops| ==> Next(ws[i], ops[i], ws[i + 1])
  }

  /** In every state of every run the counters are the numbers of holders and waiters, there
      is at most one writer, and none while anybody reads. */
  lemma {:induction false} Exclusion(ws: seq<World>, ops: seq<Op>, n: nat)
    requires Run(ws, ops) && Init(ws[0]) && n <= |ops|
    ensures Inv(ws[n])
    ensures Count(ws[n].pcs, AtWriting) <= 1
    ensures Count(ws[n].pcs, AtWriting) == 1 ==> Count(ws[n].pcs, AtReading) == 0
  {
    if n > 0 {
      Exclusion(ws, ops, n - 1);
      StepKeepsInv(ws[n - 1], ops[n - 1], ws[n]);
    }
  }

  /** Which counter a release takes down is read from the lock, not from the caller: it is
      the right one because readers and writers never hold the lock together, and a release
      by a thread that holds nothing always makes a counter wrong, or fails with EINVAL. */
  lemma ReleaseByHolderIff(w: World, t: nat)
    requires Inv(w) && t < |w.pcs|
    ensures var w' := World(Unlocked(w.l), w.pcs[t := Out]);
      (w.pcs[t] == Reading || w.pcs[t] == Writing ==> Inv(w'))
      && (w.pcs[t] == Out && (w.l.rr != 0 || w.l.ww != 0) ==> !Inv(w'))
      && (w.l.rr == 0 && w.l.ww == 0 ==> Unlocked(w.l) == w.l)
  {
    CountAll(w.pcs, t, Out);
  }
}
