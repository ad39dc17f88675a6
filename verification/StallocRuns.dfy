/** Whole runs of the allocator in which the lowest block is never handed out whole. */
module StallocRuns {
  import opened Blocks
  import opened Stalloc

  datatype Op = DoAlloc(size: nat) | DoFree(j: nat)

  ghost predicate Next(bs: seq<Block>, op: Op, bs': seq<Block>) {
    match op
    case DoAlloc(size) =>
      && size < WORD
      && (var sz := RoundUp(size); var i := FirstFit(bs, sz);
          bs' == if i == |bs| then bs else Carve(bs, i, sz))
    case DoFree(j) => j < |bs| && !bs[j].free && bs' == Release(bs, j)
  }

  /** The block at the bottom of the pool stays free. */
  ghost predicate SparesLowest(bs: seq<Block>, op: Op) {
    op.DoAlloc? && op.size < WORD && FirstFit(bs, RoundUp(op.size)) == 0 < |bs| ==>
      bs[0].len - RoundUp(op.size) >= MIN_BLOCK
  }

  ghost predicate Inv(bs: seq<Block>, base: nat, end: nat) {
    Tiles(bs, base, end) && NoFreeNeighbours(bs) && bs[0].free
  }

  lemma StepKeepsInv(bs: seq<Block>, op: Op, bs': seq<Block>, base: nat, end: nat)
    requires Inv(bs, base, end) && Next(bs, op, bs') && SparesLowest(bs, op)
    ensures Inv(bs', base, end)
  {
    match op
    case DoAlloc(size) =>
      var i := FirstFit(bs, RoundUp(size));
      if i < |bs| {
        CarveTiles(bs, i, RoundUp(size), base, end);
        CarveSeparates(bs, i, RoundUp(size));
        if i == 0 { CarveSplits(bs, i, RoundUp(size)); }
      }
    case DoFree(j) =>
      ReleaseTiles(bs, j, base, end);
      ReleaseSeparates(bs, j);
      MergeUpAt(bs, j);
  }

  /** In such a state the list head lies below every live block, which is what stalloc_free
      needs to keep the pool in order. */
  lemma HeadIsLowest(bs: seq<Block>, base: nat, end: nat, head: nat, nx: seq<nat>, j: nat)
    requires 0 < base && Inv(bs, base, end) && Linked(bs, head, nx) && j < |bs| && !bs[j].free
    ensures head == base && 0 != head < bs[j].addr
  {
    NextFreeIs(bs, 0, 0);
    Apart(bs, base, end, 0, j);
  }

  lemma LiveStaysAlloc(bs: seq<Block>, op: Op, bs': seq<Block>, k: nat)
    requires op.DoAlloc? && Next(bs, op, bs') && k < |bs| && !bs[k].free
    ensures bs[k] in bs'
  {
    var i := FirstFit(bs, RoundUp(op.size));
    if i < |bs| {
      assert bs'[if k < i then k else k + |bs'| - |bs|] == bs[k];
    }
  }

  lemma LiveStaysFree(bs: seq<Block>, j: nat, k: nat)
    requires j < |bs| && !bs[j].free && k < |bs| && !bs[k].free && k != j
    ensures bs[k] in Release(bs, j)
  {
    var up, r := MergeUp(bs, j), Release(bs, j);
    MergeUpAt(bs, j);
    var k1 := if k < j then k else k + |up| - |bs|;
    assert up[k1] == bs[k];
    assert r[if k < j then k else k1 + |r| - |up|] == up[k1];
  }

  /** A live block keeps its address and its length through every step but its own release. */
  lemma LiveStays(bs: seq<Block>, op: Op, bs': seq<Block>, k: nat)
    requires Next(bs, op, bs') && k < |bs| && !bs[k].free && op != DoFree(k)
    ensures bs[k] in bs'
  {
    match op
    case DoAlloc(_) => LiveStaysAlloc(bs, op, bs', k);
    case DoFree(j) => LiveStaysFree(bs, j, k);
  }

  function Total(bs: seq<Block>, n: nat): nat
    requires n <= |bs|
  {
    if n == 0 then 0 else Total(bs, n - 1) + HLEN + bs[n - 1].len
  }

  /** Headers and data of all blocks together are always the whole pool. */
  lemma {:induction false} TotalIsPool(bs: seq<Block>, base: nat, end: nat, n: nat)
    requires Tiles(bs, base, end) && 0 < n <= |bs|
    ensures Total(bs, n) == bs[n - 1].End() - base
    ensures n == |bs| ==> Total(bs, n) == end - base
  {
    if n > 1 {
      TotalIsPool(bs, base, end, n - 1);
      assert Abuts(bs, n - 1);
    } else {
      assert Total(bs, 0) == 0;
    }
  }

  ghost predicate Run(ss: seq<seq<Block>>, ops: seq<Op>) {
    && |ss| == |ops| + 1
    && forall i :: 0 <= i < |ops| ==> Next(ss[i], ops[i], ss[i + 1]) && SparesLowest(ss[i], ops[i])
  }

  /** In every state of every run from the initial pool the blocks tile the pool and no two
      free ones touch, and whenever everything has been freed the pool is as it began. */
  lemma {:induction false} AlwaysTiled(ss: seq<seq<Block>>, ops: seq<Op>, base: nat, end: nat, n: nat)
    requires Run(ss, ops) && base + HLEN <= end && ss[0] == [Block(base, end - base - HLEN, true)]
    requires n <= |ops|
    ensures Inv(ss[n], base, end) && Total(ss[n], |ss[n]|) == end - base
    ensures (forall i :: 0 <= i < |ss[n]| ==> ss[n][i].free) ==> ss[n] == ss[0]
  {
    if n > 0 {
      AlwaysTiled(ss, ops, base, end, n - 1);
      StepKeepsInv(ss[n - 1], ops[n - 1], ss[n], base, end);
    }
    TotalIsPool(ss[n], base, end, |ss[n]|);
    if forall i :: 0 <= i < |ss[n]| ==> ss[n][i].free {
      AllFreeIsOne(ss[n], base, end);
    }
  }

  /** A call of stalloc, or of stalloc_free with the pointer that is passed. */
  datatype Call = Ask(size: nat) | Give(memp: nat)

  ghost predicate Calls(c: Call, op: Op, bs: seq<Block>) {
    match op
    case DoAlloc(size) => c == Ask(size)
    case DoFree(j) => j < |bs| && c == Give(bs[j].addr + HLEN)
  }

  /** Such a run on a pool in memory: whatever the calls, headers and free list are in order at
      the end, and the blocks are those of the run. */
  method Perform(s: Pool, calls: seq<Call>, ghost ss: seq<seq<Block>>, ghost ops: seq<Op>)
    requires s.Valid() && Inv(s.blocks, s.base, s.end)
    requires Run(ss, ops) && ss[0] == s.blocks && |calls| == |ops|
    requires forall i :: 0 <= i < |ops| ==> Calls(calls[i], ops[i], ss[i])
    modifies s, s.next, s.len
    ensures s.Valid() && Inv(s.blocks, s.base, s.end) && s.blocks == ss[|ops|]
  {
    for i := 0 to |calls|
      invariant s.Valid() && Inv(s.blocks, s.base, s.end) && s.blocks == ss[i]
    {
      Do(s, calls[i], ops[i], ss[i + 1]);
    }
  }

  method Do(s: Pool, c: Call, ghost op: Op, ghost bs: seq<Block>)
    requires s.Valid() && Inv(s.blocks, s.base, s.end) && Calls(c, op, s.blocks)
    requires Next(s.blocks, op, bs) && SparesLowest(s.blocks, op)
    modifies s, s.next, s.len
    ensures s.Valid() && Inv(s.blocks, s.base, s.end) && s.blocks == bs
  {
    StepKeepsInv(s.blocks, op, bs, s.base, s.end);
    match c
    case Ask(size) =>
      var _ := s.Alloc(size);
    case Give(memp) =>
      HeadIsLowest(s.blocks, s.base, s.end, s.head, s.next[..], op.j);
      s.Free(memp, op.j);
  }

  // ----- a run in which the lowest block is handed out whole

  const START := [Block(2, 100, true)]
  const ONE := [Block(2, 84, true), Block(92, 10, false)]
  const TWO := [Block(2, 68, true), Block(76, 10, false), Block(92, 10, false)]
  const APART := [Block(2, 68, true), Block(76, 10, false), Block(92, 10, true)]
  const WHOLE := [Block(2, 68, false), Block(76, 10, false), Block(92, 10, true)]
  const NONE := [Block(2, 68, false), Block(76, 10, false), Block(92, 10, false)]

  lemma Carved()
    ensures FirstFit(START, 10) == 0 && Carve(START, 0, 10) == ONE
    ensures FirstFit(ONE, 10) == 0 && Carve(ONE, 0, 10) == TWO
    ensures FirstFit(APART, 60) == 0 && Carve(APART, 0, 60) == WHOLE
    ensures FirstFit(WHOLE, 10) == 2 && Carve(WHOLE, 2, 10) == NONE
  {
  }

  lemma Released()
    ensures Release(TWO, 2) == APART && NextFree(TWO, 0) == 0 && NextFree(WHOLE, 0) == 2
    ensures NextFree(APART, 1) == 2 && NextFree(NONE, 0) == 3
  {
    NextFreeIs(WHOLE, 0, 2);
    NextFreeIs(NONE, 0, 3);
  }

  method OneFreed() returns (s: Pool)
    ensures fresh(s) && fresh(s.next) && fresh(s.len) && s.Valid() && s.blocks == APART && s.next.Length == 108
  {
    Carved();
    Released();
    s := new Pool(108, 2, 106);
    var _ := s.Alloc(10);
    var _ := s.Alloc(10);
    s.Free(98, 2);
  }

  /** A pool whose lowest block is live, and whose only free block lies above it. */
  method LowestLive() returns (s: Pool)
    ensures fresh(s) && fresh(s.next) && fresh(s.len) && s.Valid() && s.blocks == WHOLE
    ensures s.next.Length == 108 && s.next[2] == 92
  {
    Carved();
    Released();
    s := OneFreed();
    assert LinkAt(s.blocks, s.next[..], 0);
    var _ := s.Alloc(60);
    assert s.blocks[0].addr == 2;
  }

  /** Freed, the lowest block is not where the list starts. */
  method LowestLost() returns (s: Pool)
    ensures s.blocks == Release(WHOLE, 0) && !s.Valid()
  {
    Released();
    s := LowestLive();
    s.Free(8, 0);
  }

  /** With the last free block handed out as well, the list is empty; the block freed into it
      brings along the link it had when it was last free, to a block that is live. */
  method LiveListed() returns (s: Pool)
    ensures s.blocks == Release(NONE, 0) && !s.Valid()
  {
    Carved();
    Released();
    s := LowestLive();
    var _ := s.Alloc(10);
    s.Free(8, 0);
  }
}
